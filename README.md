# wandlung core in Dafny

wandlung downloads YouTube videos, transcribes them into SRT subtitles, translates those
subtitles through a chunked conversation with a language model, burns a subtitle into the
video and streams the result. This project models that core and proves properties of it:

- `webvtt.dfy`: the SRT to WebVTT converter. It is a method that builds the output lines
  block by block and is proved equal to a specification function. Lemmas cover the header,
  the order of blocks, the independence of blocks and reading the cues back.
- `conversation.dfy`: the translation loop shared by both services. It is a `while` method
  proved against a trace function of the model's replies. Lemmas cover the history shape,
  chunk order, stopping, the iteration ceiling and where errors come from.
- `subtitle_service.dfy`, `legacy_services.dfy`, `video_service.dfy`: the service operations.
  They work as imperative methods over a `Database` class and a `FileSystem` class. External
  tools are parameters.
- `models.dfy`: the Django models as a store class. It keeps the Settings singleton, the
  unique `video_id`, the unique `(video, language)` pair and the cascade on delete.
- `settings_api.dfy`: the get-or-create and setattr-loop endpoints.
- `duration.dfy`: the `MM:SS` formatter of the transcription dialog.
- Supporting modules:
  - `pystr.dfy`: Python `strip`, `split`, `join` and `replace`;
  - `decimal.dfy`: decimal rendering and `padStart`;
  - `paths.dfy`: file names;
  - `files.dfy`: the local file system;
  - `errors.dfy`: the exception kinds;
  - `wrappers.dfy`: `Option` and `Result`.

The following are parameters of the model:
- yt-dlp, the thumbnail download, ffmpeg, the OpenAI transcription and the Anthropic replies. Each is a function from what the program sends to what comes back, or to the message it fails with. For the Anthropic replies, `Conversation.Reply` has a `RequestFailed(message)` case: `messages.create` raised.
- Django's ORM and file storage. They become maps inside `Models.Database`.
- The working directory. It becomes `LocalFiles.FileSystem`.

## Model

| member | source | states |
|---|---|---|
| WebVtt.WebVttOf | api/apps/utils.py:2-31 | What srt_to_webvtt returns: the header line and a blank line, then each kept block's cue lines in block order, joined with "\n". Its properties are the lemmas below. |
| WebVtt.SrtToWebVtt | api/apps/utils.py:2-31 | The loop's output is the header line, a blank line, then each block's cue lines in block order, joined with "\n". |
| WebVtt.HeaderAndEnding | api/apps/utils.py:7-31 | The output always starts with "WEBVTT\n". With no kept block it is exactly "WEBVTT\n". Otherwise it starts with "WEBVTT\n\n" and ends with a newline. |
| WebVtt.Blocks | api/apps/utils.py:6 | The content stripped, then split at every blank line. |
| WebVtt.CueLines | api/apps/utils.py:10-28 | A block of fewer than two lines gives nothing. Otherwise it gives its second line with commas turned into periods, then the remaining lines, then a blank line. |
| WebVtt.ShortBlockInert | api/apps/utils.py:17-18 | Deleting a block of fewer than two lines from the block list leaves the output lines unchanged. |
| WebVtt.IndexLineIgnored | api/apps/utils.py:20-24 | Two blocks that differ only in their first (index) line give the same cue lines. |
| WebVtt.BodyLinesAppend | api/apps/utils.py:9-28 | Blocks are converted independently: the lines of two block lists joined are the two outputs joined. |
| WebVtt.BodyIsRenderedCues | api/apps/utils.py:21-28 | The body is the cues rendered in order: the timing line with ',' replaced by '.', then the text lines, then a blank line. |
| WebVtt.CuesOfCount | api/apps/utils.py:9-18 | There is exactly one cue per block of at least two lines. |
| WebVtt.BodyEmptyIffNoneKept | api/apps/utils.py:17-28 | The body is empty exactly when no block is kept; otherwise it ends with a blank line. |
| WebVtt.CueTextsNonEmpty | api/apps/utils.py:6-24 | After strip and the cut at blank lines, no text line of any cue is empty. |
| WebVtt.CuesHaveNoNewline | api/apps/utils.py:10-24 | No timing or text line of a cue contains a newline. |
| WebVtt.ParseRenderCues | api/apps/utils.py:21-28 | Rendered cues whose text lines are non-empty parse back to the same cues. |
| WebVtt.OutputLines | api/apps/utils.py:31 | Cutting the output at "\n" gives back the header, the blank line and the rendered cues. |
| WebVtt.ReadBack | api/apps/utils.py:6-31 | Reading the output line by line gives the header, a blank line, then exactly the cues of the kept blocks, in order and as many as kept blocks. |
| PyStr.Split | api/apps/utils.py:6-10 | str.split(sep) for a non-empty separator: cuts left to right at every non-overlapping occurrence. There is always at least one part. JoinSplit and SplitJoin state its relation to Join. |
| PyStr.Join | api/apps/utils.py:31 | sep.join(parts): the parts with the separator between each pair. JoinSplit and SplitJoin state its relation to Split. |
| PyStr.Strip | api/apps/utils.py:6 | The result is a slice of the input with only whitespace cut from both ends and no whitespace at either end. |
| PyStr.JoinSplit | api/apps/utils.py:6 | Joining the parts of a split with the separator restores the string. |
| PyStr.SplitJoin | api/apps/utils.py:31 | Parts joined with a one-character separator split back into the same parts when none contains it. |
| PyStr.Replace | api/apps/utils.py:21 | Same length; each character equal to the old one becomes the new one and every other character is kept. |
| PyStr.SplitFirstPart | api/apps/utils.py:10 | The first part of a split is empty exactly when the string is empty or starts with the separator. |
| Decimal.NatToString | ui/src/pages/subtitle/TranscribeVideoModal.tsx:73 | String(n) for a whole number: at least one digit, all digits, no leading zero, one digit exactly below 10, at most two below 100. |
| Decimal.IntToString | api/apps/services/video_service.py:26 | str(i) for a whole number, with a minus sign in front of a negative one. The first character is '-' exactly when i is negative. The rest is all digits and reads back as the absolute value of i. Also used for the cut bounds at api/apps/services/subtitle_service.py:139-140. |
| Decimal.ParseNatToString | ui/src/pages/subtitle/TranscribeVideoModal.tsx:73 | The decimal rendering of a number reads back as that number. |
| Decimal.ParseLeadingZeros | ui/src/pages/subtitle/TranscribeVideoModal.tsx:73 | Zero padding in front does not change the value of a digit string. |
| Decimal.PadStart | ui/src/pages/subtitle/TranscribeVideoModal.tsx:73 | A string at least width long is unchanged. A shorter one becomes exactly width long. The result is fill characters followed by the string. |
| Duration.FormatDuration | ui/src/pages/subtitle/TranscribeVideoModal.tsx:70-74 | formatDuration: at least 5 characters, a ':' third from the end, and a digit everywhere else. Below 100 minutes it is exactly MM:SS, 5 characters. |
| Duration.SecondsField | ui/src/pages/subtitle/TranscribeVideoModal.tsx:72-73 | The seconds field is exactly two digits and reads back as seconds % 60, which is below 60. |
| Duration.MinutesField | ui/src/pages/subtitle/TranscribeVideoModal.tsx:71-73 | padStart(2, '0') of the minutes: exactly two digits below 10 minutes, otherwise exactly the minutes' own digits (no truncation, no extra padding). It reads back as floor(seconds / 60). |
| Duration.FieldsAroundColon | ui/src/pages/subtitle/TranscribeVideoModal.tsx:73 | The text cuts at its ':' into the minutes field and the seconds field. |
| Duration.FormatDurationReadsBack | ui/src/pages/subtitle/TranscribeVideoModal.tsx:70-74 | Reading the fields back gives minutes and seconds with 60 * minutes + seconds equal to the input and seconds below 60. |
| Duration.FiveMinutes | ui/src/pages/subtitle/TranscribeVideoModal.tsx:70-74 | 300 seconds format as "05:00". |
| Duration.TwoHours | ui/src/pages/subtitle/TranscribeVideoModal.tsx:71-73 | 7205 seconds format as "120:05": three-digit minutes are kept whole. |
| Conversation.Chunks | api/apps/services/subtitle_service.py:110 | translated_chunks: the texts read, each stripped, in order, one chunk per text. |
| Conversation.Step | api/apps/services/subtitle_service.py:94-118 | One pass of the loop body: the history grows by the reply and CONTINUE on NEXT, the text is kept once it has been read, the count goes up by one, and the status is the verdict on the reply. |
| Conversation.Outcome | api/apps/services/subtitle_service.py:111-119 | What the loop returns or raises: the failure's error, or the chunks joined with a blank line. |
| Conversation.Trace | api/apps/services/subtitle_service.py:90-119 | The loop state after n passes of the loop test, with the k-th reply answering the k-th request. A finished loop stays as it is. The lemmas below state its properties. |
| Conversation.SystemPrompt | api/apps/services/subtitle_service.py:77-84 | The system prompt starts by naming the target language. |
| Conversation.ReplyError | api/apps/services/subtitle_service.py:96-118 | A reply raises no error exactly when it is a JSON object with a "text" and a NEXT or END command. A failed request raises the client's error. JSON that is not an object raises TypeError at data['text']. |
| Conversation.Verdict | api/apps/services/subtitle_service.py:104-118 | The loop goes on exactly on NEXT and ends normally exactly on END; any other reply fails with that reply's error. |
| Conversation.ChunksAt | api/apps/services/subtitle_service.py:110 | Each translated chunk is the corresponding reply text, stripped. |
| Conversation.Converse | api/apps/services/subtitle_service.py:86-119 | The loop sends as many requests as the trace's round count, each carrying the history before its round, and returns the trace's outcome. |
| Conversation.HandleReply | api/apps/services/subtitle_service.py:96-118 | One reply's handling: the history grows only on NEXT. The stripped text is kept once it has been read. A failed request raises before any chunk is kept. The loop goes on exactly on NEXT; on END it returns the joined chunks, otherwise the reply's error. |
| Conversation.SentRequestAt | api/apps/services/subtitle_service.py:96-102 | Request k carries the model name, the system prompt, 4096 max tokens, the caller's temperature and the whole history before round k. |
| Conversation.TraceStays | api/apps/services/subtitle_service.py:111-118 | Once the loop has stopped, further rounds change nothing. |
| Conversation.TraceCount | api/apps/services/subtitle_service.py:93-94 | The round count never exceeds the iteration ceiling. A stopped loop ran at least one round. |
| Conversation.RunningIffAllNext | api/apps/services/subtitle_service.py:111-118 | The loop is still running after n rounds exactly when the first n replies were all NEXT. |
| Conversation.HistoryShape | api/apps/services/subtitle_service.py:86-114 | The history is the user's SRT turn followed by, for each NEXT reply in order, the raw reply as an assistant turn and a user "CONTINUE" turn. |
| Conversation.HistoryAlternates | api/apps/services/subtitle_service.py:86-114 | History turns alternate user, assistant, user, starting with the user. |
| Conversation.TextsInOrder | api/apps/services/subtitle_service.py:104-110 | The collected texts are the "text" members of the replies in reply order; one per round, except a final reply that had no readable text. |
| Conversation.StopsAtFirstNonNext | api/apps/services/subtitle_service.py:111-118 | The loop stops right after the first non-NEXT reply. On END it returns the joined chunks; on any other reply it fails with that reply's error. |
| Conversation.CeilingReturnsChunks | api/apps/services/subtitle_service.py:93-119 | When every reply is NEXT, the loop runs exactly to the ceiling and returns all the chunks joined, with no error. |
| Conversation.LastReplyDecides | api/apps/services/subtitle_service.py:104-118 | A stopped loop's status is the verdict on its last reply. |
| Conversation.ErrorComesFromLastReply | api/apps/services/subtitle_service.py:104-119 | A failure is the error of the last reply. A success has either reached the ceiling or ended on END. |
| Conversation.TranslationOutcome | api/apps/services/subtitle_service.py:70-75 | Missing Settings and a missing Anthropic key are reported first, with their messages; otherwise the outcome is the loop's. |
| Conversation.Translate | api/apps/services/subtitle_service.py:70-119 | The result is the translation outcome, and the requests are the loop's requests with the system prompt and temperature (none when not ready). |
| Conversation.RequestsBounded | api/apps/services/subtitle_service.py:93-102 | No more requests are sent than the iteration ceiling. |
| LegacyServices.TranslateSubtitleAnthropic | api/apps/services.py:12-63 | The same outcome as the service loop with temperature fixed at 0.4 and a local ceiling of 100 rounds. |
| LegacyServices.TranslateSubtitleContent | api/apps/services.py:8-9 | Delegates: same outcome and requests as the legacy loop. |
| SubtitleService.NewService | api/apps/services/subtitle_service.py:17-20 | Construction fails with "Settings not found" exactly when there is no Settings row. |
| SubtitleService.TranscribeVideo | api/apps/services/subtitle_service.py:22-52 | Without an OpenAI key it fails before touching anything. An unknown video gives a wrapped not-found. A transcription failure is wrapped. Otherwise one English, transcribed subtitle is added, unless English already exists. The audio file is always gone afterwards. |
| SubtitleService.TranslateSubtitleAnthropic | api/apps/services/subtitle_service.py:70-119 | The outcome and requests of the translation loop with the first Settings row, the caller's temperature and MAX_ITERATIONS. |
| SubtitleService.TranslateSubtitle | api/apps/services/subtitle_service.py:54-68 | Every failure is a SubtitleError and adds nothing. A missing subtitle sends no request. On success exactly one untranscribed subtitle with the translation is added for the source's video. |
| SubtitleService.TrimStart | api/apps/services/subtitle_service.py:139 | A missing or zero start trims from 0; any other start is used as given. |
| SubtitleService.TrimEnd | api/apps/services/subtitle_service.py:140 | A missing or zero end falls back to the video's duration; any other end is used as given. |
| SubtitleService.BurnOptions | api/apps/services/subtitle_service.py:137-140 | The whole ffmpeg output option string: audio copied, the subtitle file drawn with the fixed font and size, trimmed with -ss and -to. |
| SubtitleService.BurnInvocation | api/apps/services/subtitle_service.py:124-141 | ffmpeg reads the video's .mp4 file and writes the -with-<subtitle id>.mp4 file. |
| SubtitleService.BurnSubtitle | api/apps/services/subtitle_service.py:121-151 | An unknown subtitle is an unwrapped not-found that touches nothing. The temporary video and subtitle files are always gone afterwards. An ffmpeg failure is wrapped. A success leaves only the output and returns an unstarted stream of it, with its length and an attachment disposition naming the output file. |
| SubtitleService.StreamVideoResponse | api/apps/services/subtitle_service.py:153-170 | The response streams the path from the start, as video/mp4 with the basename as attachment name, and gives a length only when the file exists. |
| SubtitleService.ChunksOf | api/apps/services/subtitle_service.py:156-161 | The chunks f.read(chunk_size) returns in turn until it returns nothing. ChunksOfSpec and ChunksOfHead state what they are. |
| SubtitleService.ChunksOfSpec | api/apps/services/subtitle_service.py:157-161 | The chunks concatenate to the file's contents and each holds between 1 and chunk-size bytes. |
| SubtitleService.ChunksOfHead | api/apps/services/subtitle_service.py:158 | Each read takes the next chunk-size bytes, or all that remain. |
| SubtitleService.FileIterator.constructor | api/apps/services/subtitle_service.py:154-156 | A new iterator has not opened the file and has yielded nothing. |
| SubtitleService.FileIterator.Next | api/apps/services/subtitle_service.py:154-164 | Each step yields the next chunk of the file. At the end it yields nothing and deletes the file. A missing file raises once. A finished iterator stays finished. |
| SubtitleService.FileIterator.Close | api/apps/services/subtitle_service.py:162-164 | Closing a started iterator deletes the file; closing one that never started leaves it. |
| SubtitleService.FileIterator.Drain | api/apps/services/subtitle_service.py:154-164 | Reading to the end yields exactly the file's chunks, in order, and the file is gone afterwards. |
| Paths.VideoPath | api/apps/services/subtitle_service.py:124 | The video file of a burn-in: the video id with ".mp4". |
| Paths.SubtitlePath | api/apps/services/subtitle_service.py:125 | The subtitle file of a burn-in: the video id with ".srt". |
| Paths.OutputPath | api/apps/services/subtitle_service.py:126 | The burned-in result: the video id, "-with-", the subtitle id in decimal, then ".mp4". |
| Paths.AudioPath | api/apps/services/video_service.py:82 | The extracted audio: the video id with ".m4a". |
| Paths.ThumbnailPath | api/apps/services/video_service.py:72 | The downloaded thumbnail: the video id with ".jpg". |
| Paths.BurnPathsDistinct | api/apps/services/subtitle_service.py:124-126 | The video, subtitle and output paths are pairwise distinct, so cleanup never removes the output. |
| Paths.MediaPathsDistinct | api/apps/services/video_service.py:72-82 | The thumbnail and audio paths differ. |
| Paths.Basename | api/apps/services/subtitle_service.py:167 | The basename is the longest '/'-free suffix of the path: it is a suffix, holds no '/', and is either the whole path or preceded by a '/'. |
| LocalFiles.FileSystem.Write | api/apps/services/subtitle_service.py:129-133 | Writing replaces that one file and nothing else. |
| LocalFiles.FileSystem.RemoveIfExists | api/apps/services/subtitle_service.py:50-52 | The path is absent afterwards and nothing else changes. |
| LocalFiles.FileSystem.RemoveEach | api/apps/services/subtitle_service.py:148-151 | Every listed path is absent afterwards and nothing else changes. |
| LocalFiles.WritesThenRemove | api/apps/services/subtitle_service.py:128-151 | Writing two files and then removing both leaves the file system as it was, less those two. |
| LocalFiles.WritesOutputThenRemove | api/apps/services/subtitle_service.py:128-151 | Writing two temporary files and an output, then removing the temporaries, leaves exactly the added output. |
| LocalFiles.WritesThenRemoveThree | api/apps/services/video_service.py:44-67 | Writing two files and then removing them and a third leaves the file system as it was, less the three. |
| LocalFiles.EncodeText | api/apps/services/subtitle_service.py:132-133 | The encoding is at least as long as the text. ASCII text is written byte for byte. |
| LocalFiles.DecodeUtf8 | api/apps/services/subtitle_service.py:132-133 | The UTF-8 encoding of any character decodes back to that character and its length, whatever bytes follow. |
| LocalFiles.DecodeEncode | api/apps/services/subtitle_service.py:132-133 | The bytes written for any text decode back, as UTF-8, to exactly that text. |
| Models.VideoStr | api/apps/models.py:21-22 | A video prints as its title. |
| Models.SignedThumbnailUrl | api/apps/models.py:24-28 | None exactly when the thumbnail is empty; otherwise the storage URL of its name. |
| Models.NewSubtitle | api/apps/models.py:39 | A new subtitle is transcribed by default. |
| Models.Database.Valid | api/apps/models.py:12-37 | The store's invariant: every id is below the next free id, video_id is unique, every subtitle's video exists, and (video, language) is unique. Every method of the store keeps it. |
| Models.Database.FirstSettings | api/apps/api/setting.py:11 | Settings.objects.first() is present exactly when the row exists and is that row's record. |
| Models.Database.SaveSettings | api/apps/models.py:63-66 | A new row while one exists is refused with the singleton message and changes nothing. A new row in an empty table is stored. Re-saving the existing row overwrites it. |
| Models.Database.VideoByVideoId | api/apps/models.py:12 | The lookup finds the one video with that video_id, or reports that none has it. |
| Models.Database.CreateVideo | api/apps/models.py:12 | Creation fails with an integrity error exactly when the video_id is taken. Otherwise the video is added under a fresh id. |
| Models.Database.CreateSubtitle | api/apps/models.py:35-37 | Creation fails exactly when the video does not exist or already has that language. Otherwise the subtitle is added under a fresh id. |
| Models.Database.DeleteVideo | api/apps/models.py:37 | The video is removed with all its subtitles and nothing else. |
| Models.SubtitlesNotOf | api/apps/models.py:37 | Exactly the subtitles of other videos remain, unchanged. |
| Models.AddSubtitleUnique | api/apps/models.py:35 | Adding a subtitle keeps (video, language) unique exactly when that pair is not yet taken. |
| Models.AtMostOnePerLanguage | api/apps/models.py:35 | Two subtitles with the same video and language are the same subtitle. |
| Models.CascadeLeavesNoOrphans | api/apps/models.py:37 | After the cascade, every remaining subtitle points to a remaining video. |
| Models.DefaultSettingsValues | api/apps/models.py:58-61 | The default height is 720, one of the height choices. Both keys are unset. HE-AAC v2 is on. |
| SettingsApi.Items | api/apps/api/setting.py:23 | payload.dict().items(): the four Settings fields other than id, in the order the model declares them. |
| SettingsApi.SetAttr | api/apps/api/setting.py:24 | setattr: the record with that one field replaced. |
| SettingsApi.SetAll | api/apps/api/setting.py:23-24 | The record after setattr for each item in order. SetAllItems states the result for a whole payload. |
| SettingsApi.SetAllItems | api/apps/api/setting.py:23-24 | Setting every payload field in order turns any record into the payload. |
| SettingsApi.FirstOrCreate | api/apps/api/setting.py:11-13 | The existing row is returned untouched; otherwise a default row is created. There is never a second row. |
| SettingsApi.GetSettings | api/apps/api/setting.py:10-14 | Returns the existing record unchanged, or creates and returns the defaults. |
| SettingsApi.UpdateSettings | api/apps/api/setting.py:18-26 | The single row, kept under its id or newly created, ends up equal to the payload, and the payload is returned. |
| VideoService.NewService | api/apps/services/video_service.py:19-22 | Construction fails with "Settings not found" exactly when there is no Settings row. |
| VideoService.FormatSelector | api/apps/services/video_service.py:26 | The yt-dlp format option: the three alternatives separated by '/'. FormatSelectorAlternatives states that they read back. |
| VideoService.FormatSelectorAlternatives | api/apps/services/video_service.py:26 | The selector splits at '/' into exactly the three alternatives: bestvideo+bestaudio bounded by the height, best bounded by the same height, then best. |
| VideoService.SelectCodec | api/apps/services/video_service.py:83 | use_he_aac_v2 selects libfdk_aac at 24k; otherwise aac at 128k. |
| VideoService.AudioOptions | api/apps/services/video_service.py:87 | The ffmpeg output options for audio extraction: the six words separated by spaces. AudioOptionWords states that they read back. |
| VideoService.AudioOptionWords | api/apps/services/video_service.py:87 | The options split into exactly six words: -y, -c:a, the codec, -b:a, the bitrate and -vn. The profile is not among them. |
| VideoService.SelectedAudioOptions | api/apps/services/video_service.py:83-87 | Both codec table entries give those six words. |
| VideoService.DownloadPath | api/apps/services/video_service.py:28-35 | ydl.prepare_filename for the template '%(id)s.%(ext)s': the id, '.', then the extension. |
| VideoService.AudioInvocation | api/apps/services/video_service.py:81-89 | The one ffmpeg run of a download reads the downloaded file and writes the id's .m4a file. |
| VideoService.NewVideo | api/apps/services/video_service.py:53-62 | A null duration raises TypeError before any row is attempted. Otherwise a row exists exactly when width, height and title are present, and a missing one is an IntegrityError. The row keeps the id, title, width, height, the "thumbnails/" name, the files and the duration, which defaults to 0 when absent. |
| VideoService.StoreVideo | api/apps/services/video_service.py:47-67 | The try/finally block: a failed row build is the failure. A buildable row fails exactly when its video_id is taken, and then with IntegrityError. Otherwise the row is added under a fresh id. No failure adds a row. The three files are gone afterwards in every case. |
| VideoService.ProcessVideo | api/apps/services/video_service.py:43-90 | A thumbnail or ffmpeg failure leaves the files written so far. Once the row is attempted, the thumbnail, audio and video files are all gone. A row is added exactly when it can be built and its video_id is new; a row that cannot be built fails with its own error, and a buildable row whose video_id is taken fails with IntegrityError. |
| VideoService.DownloadVideo | api/apps/services/video_service.py:24-41 | Every failure is a VideoProcessingError that adds no row; a taken video_id gives VideoProcessingError(IntegrityError). ffmpeg runs at most once, and exactly once on success. Success returns the video's id. Cleanup is as in ProcessVideo. |

## Left out

- Floating-point seconds are not modelled. Trim points and durations are integers and the temperature is a `real`, so the rendering of "300.0" against "300" is not captured.
- `Duration.FormatDuration`: defined only for whole, non-negative seconds, so `Math.floor` on fractional input is not modelled.
- `Decimal.NatToString`: the numbers are unbounded integers. JavaScript numbers are doubles, exact only up to 2^53, and `String(n)` switches to exponent notation from 1e21. So for durations of 2^53 seconds and more, `Duration.FormatDurationReadsBack` is stronger than what the browser does.
- The HTTP layer is not modelled: routing, schemas, the admin rules and the duplicate transcription route in `api/apps/api/video.py`.
- The UI is not modelled, except the duration formatter.
- Concurrency is not modelled. Temporary names are keyed only by video id; the model is sequential.
- External programs are oracles, and their internals are not modelled (yt-dlp, urllib, PIL, ffmpeg, OpenAI, Anthropic, orjson).
  - A failing ffmpeg run is modelled as writing nothing; a partial output file is not modelled.
  - The temporary file that `_download_thumbnail` never deletes is not modelled.
  - The conversion to JPEG is folded into the thumbnail oracle.
- `VideoService.DownloadVideo`: yt-dlp metadata without an `id` and a downloaded file whose extension differs from the metadata's are not modelled. The path is always `id.ext`.
- Conversation replies without a content block (`response.content[0]` failing) are not modelled.
  - JSON `text` or `command` values that are not strings are not modelled. A missing key is `KeyError`.
  - The debug print before a decode error is re-raised is not modelled.
- `Models.Database.SaveSettings`: requires a given pk to be the stored row's pk. Django would insert a second row for an unknown pk, which no caller does.
- `SettingsApi.UpdateSettings`: the payload is a full Settings record. Partial payloads and schema validation are not modelled.
- Django storage renaming of clashing file names, signed-URL internals and upload directories are not modelled. The thumbnail name is kept as "thumbnails/" + name.
- Text files are written as UTF-8; other platform encodings are not modelled.
- Exception messages are error kinds that carry their cause. The f-string prefixes ("Failed to transcribe video: ", ...) are not modelled.
- `SettingsError` in `api/apps/exceptions.py` is never raised by the core and has no counterpart.
- The timing lines of the WebVTT output are not checked against the WebVTT syntax, just as the converter does not check them.

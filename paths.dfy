/** The temporary file names the services derive from a video's id, and the
    shape of an ffmpeg invocation. */
module Paths {
  import opened Decimal

  /** f'{video_id}.mp4': the original video written for burning in. */
  function VideoPath(videoId: string): string {
    videoId + ".mp4"
  }

  /** f'{video_id}.srt': the subtitle file ffmpeg reads. */
  function SubtitlePath(videoId: string): string {
    videoId + ".srt"
  }

  /** f'{video_id}-with-{subtitle_id}.mp4': the burned-in result. */
  function OutputPath(videoId: string, subtitleId: nat): string {
    videoId + "-with-" + NatToString(subtitleId) + ".mp4"
  }

  /** f'{video_id}.m4a': the extracted audio. */
  function AudioPath(videoId: string): string {
    videoId + ".m4a"
  }

  /** f'{video_id}.jpg': the downloaded thumbnail. */
  function ThumbnailPath(videoId: string): string {
    videoId + ".jpg"
  }

  /** The three files of a burn-in are distinct, so removing the two inputs
      never removes the result. */
  lemma BurnPathsDistinct(videoId: string, subtitleId: nat)
    ensures VideoPath(videoId) != SubtitlePath(videoId)
    ensures OutputPath(videoId, subtitleId) != VideoPath(videoId)
    ensures OutputPath(videoId, subtitleId) != SubtitlePath(videoId)
  {
    assert VideoPath(videoId)[|videoId| + 1] == 'm';
    assert SubtitlePath(videoId)[|videoId| + 1] == 's';
    assert |OutputPath(videoId, subtitleId)| > |VideoPath(videoId)|;
  }

  /** The thumbnail and audio files of a video are distinct. */
  lemma MediaPathsDistinct(videoId: string)
    ensures ThumbnailPath(videoId) != AudioPath(videoId)
  {
    assert ThumbnailPath(videoId)[|videoId| + 1] == 'j';
    assert AudioPath(videoId)[|videoId| + 1] == 'm';
  }

  /** os.path.basename: what follows the last '/'. */
  function Basename(path: string): (r: string)
    ensures '/' !in r
    ensures '/' !in path ==> r == path
    ensures |r| <= |path| && r == path[|path| - |r|..]
    ensures |r| < |path| ==> path[|path| - |r| - 1] == '/'
    decreases |path|
  {
    if path == [] then []
    else if path[|path| - 1] == '/' then []
    else Basename(path[..|path| - 1]) + [path[|path| - 1]]
  }

  /** One run of ffmpeg: its input file, its output file and the options
      string given for the output. */
  datatype Invocation = Invocation(input: string, output: string, options: string)
}

/**
 * The JavaCV objects the converter drives: `FFmpegFrameGrabber`, which yields the frames of a
 * started source one by one, and `FFmpegFrameRecorder`, whose settings the converter writes
 * before it records frames. The native decoding and encoding are not modelled: a grabber holds
 * the frames and stream properties it would report, and a recorder keeps what it was given.
 */
module Media {
  import opened Wrappers
  import opened Paths
  import opened Resampling
  import opened Exceptions

  /** What a started grabber reports about its source. `lengthInTime` is in microseconds. */
  datatype SourceInfo = SourceInfo(
    imageWidth: int,
    imageHeight: int,
    audioChannels: int,
    frameRate: real,
    sampleRate: int,
    displayRotation: real,
    lengthInTime: int,
    metadata: map<string, string>,
    videoMetadata: map<string, string>,
    audioMetadata: map<string, string>)

  /**
   * A source that a grabber can open: its properties, its frames in stream order, and, when
   * reading it breaks, how many frames `grab` returns before it throws.
   */
  datatype Source = Source(info: SourceInfo, frames: seq<Frame>, failsAt: Option<nat>) {

    /** Whether a `grab` throws before the end of the stream is reached. */
    predicate Breaks() {
      failsAt.Some? && failsAt.value <= |frames|
    }

    /** How many frames `grab` returns. */
    function Delivered(): nat {
      if Breaks() then failsAt.value else |frames|
    }
  }

  /** The `FrameGrabber.Exception` that a broken stream throws; JavaCV's message is not modelled. */
  const GrabError: Throwable := Throwable(FrameGrabberException, "", None)

  /** The recorder settings that `populate` writes; codec ids are libavcodec's integers. */
  datatype RecorderSettings = RecorderSettings(
    imageWidth: int,
    imageHeight: int,
    audioChannels: int,
    aspectRatio: real,
    metadata: map<string, string>,
    format: Option<string>,
    options: map<string, string>,
    videoCodec: int,
    videoCodecName: Option<string>,
    videoOptions: map<string, string>,
    videoBitrate: int,
    videoQuality: real,
    frameRate: real,
    displayRotation: real,
    videoMetadata: map<string, string>,
    audioCodec: int,
    audioCodecName: Option<string>,
    audioOptions: map<string, string>,
    audioBitrate: int,
    sampleRate: int,
    audioMetadata: map<string, string>)

  /**
   * A started `FFmpegFrameGrabber`: `grab` returns the frame at `position` while there is one
   * to deliver; after that it throws if the stream broke, and returns null at its end.
   */
  class FrameGrabber {
    const file: Path
    const info: SourceInfo
    const frames: seq<Frame>
    const delivered: nat
    const breaks: bool
    var position: nat

    predicate Valid()
      reads this
    {
      position <= delivered <= |frames|
    }

    constructor (file: Path, source: Source)
      ensures Valid() && position == 0
      ensures this.file == file && info == source.info && frames == source.frames
      ensures delivered == source.Delivered() && breaks == source.Breaks()
    {
      this.file, info, frames, position := file, source.info, source.frames, 0;
      delivered, breaks := source.Delivered(), source.Breaks();
    }

    /** What `grab` gives once the delivered frames are used up. */
    function End(): Result<Option<Frame>, Throwable> {
      if breaks then Failure(GrabError) else Success(None)
    }

    method Grab() returns (r: Result<Option<Frame>, Throwable>)
      requires Valid()
      modifies this
      ensures Valid()
      ensures old(position) < delivered ==> r == Success(Some(frames[old(position)])) && position == old(position) + 1
      ensures old(position) == delivered ==> r == End() && position == old(position)
    {
      if position < delivered {
        r := Success(Some(frames[position]));
        position := position + 1;
      } else {
        r := End();
      }
    }
  }

  /** Whether a `grab` returned a frame (and not null or an exception). */
  predicate Grabbed(r: Result<Option<Frame>, Throwable>) {
    r.Success? && r.value.Some?
  }

  /** An `FFmpegFrameRecorder`: its settings and the frames recorded so far. */
  class FrameRecorder {
    const file: Path
    var settings: RecorderSettings
    var recorded: seq<Frame>

    /**
     * `new FFmpegFrameRecorder(file, 0)`: no image size and no audio channels; every other
     * setting keeps the library default given in `defaults`.
     */
    constructor (file: Path, defaults: RecorderSettings)
      ensures this.file == file && recorded == []
      ensures settings == defaults.(imageWidth := 0, imageHeight := 0, audioChannels := 0)
    {
      this.file, recorded := file, [];
      settings := defaults.(imageWidth := 0, imageHeight := 0, audioChannels := 0);
    }

    method Record(frame: Frame)
      modifies this
      ensures recorded == old(recorded) + [frame] && settings == old(settings)
    {
      recorded := recorded + [frame];
    }
  }
}

/**
 * `FFmpegConverter`, the action that re-encodes every enumerated source file with FFmpeg:
 * resolving the configured codecs, writing the recorder settings (`populate`), copying the
 * frames with the drop/duplicate procedure (`convert`), and the per-file loop of `run`.
 *
 * libavcodec's field list, its encoder lookups, the sources a grabber can open and the
 * recorder's library defaults are parameters (`Environment`).
 */
module Converter {
  import opened Wrappers
  import opened Sequences
  import opened JavaText
  import opened Paths
  import opened Exceptions
  import opened Logging
  import opened FileSystems
  import opened FileTree
  import opened Settings
  import opened FileNames
  import opened Actions
  import opened Resampling
  import opened Media

  const ACTION_NAME := "ffmpeg-converter"

  /** `FFmpegConverterProperties`; a null value is `None`. */
  datatype ConverterProperties = ConverterProperties(
    outputLogLevel: LogLevel,
    fileExt: Option<string>,
    imageWidth: Option<int>,
    imageHeight: Option<int>,
    aspectRatio: Option<real>,
    skipMetadata: bool,
    format: Option<string>,
    option: Option<map<string, string>>,
    videoEncoder: Option<string>,
    videoOption: Option<map<string, string>>,
    videoCodec: Option<string>,
    videoBitrate: Option<int>,
    videoQuality: Option<real>,
    frameRate: Option<int>,
    frameRateMin: Option<int>,
    frameRateMax: Option<int>,
    displayRotation: Option<real>,
    skipVideoMetadata: bool,
    audioEncoder: Option<string>,
    audioOption: Option<map<string, string>>,
    audioCodec: Option<string>,
    audioBitrate: Option<int>,
    sampleRate: Option<int>,
    sampleRateMin: Option<int>,
    sampleRateMax: Option<int>,
    skipAudioMetadata: bool)

  // ---------------------------------------------------------------------------
  // CODEC_MAP and getCodecId
  // ---------------------------------------------------------------------------

  const AV_CODEC_ID_PREFIX := "AV_CODEC_ID_"

  /** A public field of `avcodec`: its name, whether it is static, whether it is an `int`, and its value. */
  datatype Field = Field(name: string, isStatic: bool, isInt: bool, value: int)

  /** The three filters of the `CODEC_MAP` stream. */
  predicate IsCodecField(f: Field) {
    f.isStatic && StartsWith(f.name, AV_CODEC_ID_PREFIX) && f.isInt
  }

  /** The key of a codec field: its name without the prefix. */
  function CodecName(f: Field): string
    requires StartsWith(f.name, AV_CODEC_ID_PREFIX)
  {
    f.name[|AV_CODEC_ID_PREFIX|..]
  }

  /** `CODEC_MAP`: every codec field, keyed by its name without the prefix. */
  function CodecMap(fields: seq<Field>): map<string, int>
    decreases |fields|
  {
    if fields == [] then map[]
    else
      var m, f := CodecMap(fields[..|fields| - 1]), fields[|fields| - 1];
      if IsCodecField(f) then m[CodecName(f) := f.value] else m
  }

  /** Java field names within one class are distinct. */
  predicate DistinctNames(fields: seq<Field>) {
    forall i, j :: 0 <= i < j < |fields| ==> fields[i].name != fields[j].name
  }

  /** A key is in the map exactly when a codec field is named by the prefix followed by the key. */
  lemma {:induction false} CodecMapKeys(fields: seq<Field>, key: string)
    ensures key in CodecMap(fields) <==>
      exists i :: 0 <= i < |fields| && IsCodecField(fields[i]) && fields[i].name == AV_CODEC_ID_PREFIX + key
    decreases |fields|
  {
    if fields != [] {
      var init, f := fields[..|fields| - 1], fields[|fields| - 1];
      CodecMapKeys(init, key);
      assert (AV_CODEC_ID_PREFIX + key)[..|AV_CODEC_ID_PREFIX|] == AV_CODEC_ID_PREFIX;
      assert (AV_CODEC_ID_PREFIX + key)[|AV_CODEC_ID_PREFIX|..] == key;
      if IsCodecField(f) {
        assert f.name == AV_CODEC_ID_PREFIX + CodecName(f);
      }
      if key in CodecMap(init) {
        var i :| 0 <= i < |init| && IsCodecField(init[i]) && init[i].name == AV_CODEC_ID_PREFIX + key;
        assert fields[i] == init[i];
      }
      if exists i :: 0 <= i < |fields| && IsCodecField(fields[i]) && fields[i].name == AV_CODEC_ID_PREFIX + key {
        var i :| 0 <= i < |fields| && IsCodecField(fields[i]) && fields[i].name == AV_CODEC_ID_PREFIX + key;
        if i < |init| {
          assert init[i] == fields[i];
        }
      }
    }
  }

  /** With distinct field names, each codec field's key maps to that field's value. */
  lemma {:induction false} CodecMapValue(fields: seq<Field>, i: nat)
    requires DistinctNames(fields) && i < |fields| && IsCodecField(fields[i])
    ensures CodecName(fields[i]) in CodecMap(fields)
    ensures CodecMap(fields)[CodecName(fields[i])] == fields[i].value
    decreases |fields|
  {
    var init, f := fields[..|fields| - 1], fields[|fields| - 1];
    if i < |fields| - 1 {
      assert init[i] == fields[i];
      CodecMapValue(init, i);
    }
  }

  /** libavcodec's `avcodec_find_encoder(id)` and `avcodec_find_encoder_by_name(name)`: the found codec's id. */
  datatype Encoders = Encoders(byId: int -> Option<int>, byName: string -> Option<int>)

  function NotRegistered(codecType: string, codec: string): string {
    "Required " + codecType + " codec " + codec + " is not registered"
  }

  function NotFound(codecType: string, name: string): string {
    "Required " + codecType + " codec " + name + " is not found"
  }

  /** `getCodecId(codec, codecType)`: the id registered under the upper-cased codec name. */
  function RegisteredCodecId(codecMap: map<string, int>, codec: string, codecType: string): Result<int, Throwable> {
    var key := ToUpper(codec);
    if key in codecMap then Success(codecMap[key])
    else Failure(NewActionRunException(ACTION_NAME, NotRegistered(codecType, codec), None))
  }

  /**
   * `getCodecId(encoder, codec, codecType)`: nothing to resolve without either name; an encoder
   * name is looked up by name, an encoder for a codec name through `CODEC_MAP`.
   */
  function GetCodecId(encoder: Option<string>, codec: Option<string>, codecType: string,
                      codecMap: map<string, int>, encoders: Encoders): (r: Result<Option<int>, Throwable>)
    ensures r == Success(None) <==> encoder.None? && codec.None?
    ensures r.Success? && encoder.Some? ==> r.value == encoders.byName(encoder.value)
    ensures r.Success? && encoder.None? && codec.Some? ==>
      ToUpper(codec.value) in codecMap && r.value == encoders.byId(codecMap[ToUpper(codec.value)])
    ensures encoder.Some? ==> (r.Failure? <==> encoders.byName(encoder.value).None?)
    ensures encoder.None? && codec.Some? ==>
      (r.Failure? <==> ToUpper(codec.value) !in codecMap || encoders.byId(codecMap[ToUpper(codec.value)]).None?)
    ensures r.Failure? ==>
      var name := if encoder.Some? then encoder.value else codec.value;
      var unregistered := encoder.None? && ToUpper(codec.value) !in codecMap;
      r.error.kind == ActionRunException && r.error.cause.None?
      && r.error.message
         == ActionMessage(ACTION_NAME, if unregistered then NotRegistered(codecType, name) else NotFound(codecType, name))
  {
    if encoder.None? && codec.None? then Success(None)
    else if encoder.Some? then
      var found := encoders.byName(encoder.value);
      if found.None? then Failure(NewActionRunException(ACTION_NAME, NotFound(codecType, encoder.value), None))
      else Success(found)
    else
      match RegisteredCodecId(codecMap, codec.value, codecType)
      case Failure(e) => Failure(e)
      case Success(id) =>
        var found := encoders.byId(id);
        if found.None? then Failure(NewActionRunException(ACTION_NAME, NotFound(codecType, codec.value), None))
        else Success(found)
  }

  /** An encoder name takes precedence: the codec name is then never looked at. */
  lemma EncoderTakesPrecedence(encoder: string, codec1: Option<string>, codec2: Option<string>, codecType: string,
                               codecMap: map<string, int>, encoders: Encoders)
    ensures GetCodecId(Some(encoder), codec1, codecType, codecMap, encoders)
         == GetCodecId(Some(encoder), codec2, codecType, codecMap, encoders)
  {
  }

  /** Codec names are matched case-insensitively: names that upper-case alike resolve alike. */
  lemma CodecNameCaseInsensitive(codec1: string, codec2: string, codecType: string,
                                 codecMap: map<string, int>, encoders: Encoders)
    requires ToUpper(codec1) == ToUpper(codec2)
    ensures var r1, r2 := GetCodecId(None, Some(codec1), codecType, codecMap, encoders),
                          GetCodecId(None, Some(codec2), codecType, codecMap, encoders);
      r1.Success? == r2.Success? && (r1.Success? ==> r1.value == r2.value)
  {
  }

  /**
   * A codec name is registered exactly when `avcodec` has a static `int` field named
   * `AV_CODEC_ID_` followed by the upper-cased name, and it resolves to that field's value.
   */
  lemma CodecResolution(fields: seq<Field>, codec: string, codecType: string)
    requires DistinctNames(fields)
    ensures var r := RegisteredCodecId(CodecMap(fields), codec, codecType);
      (r.Success? <==> exists i :: 0 <= i < |fields| && IsCodecField(fields[i])
                                  && fields[i].name == AV_CODEC_ID_PREFIX + ToUpper(codec))
      && (r.Failure? ==> r.error == NewActionRunException(ACTION_NAME, NotRegistered(codecType, codec), None))
      && forall i :: 0 <= i < |fields| && IsCodecField(fields[i]) && fields[i].name == AV_CODEC_ID_PREFIX + ToUpper(codec)
           ==> r == Success(fields[i].value)
  {
    var key := ToUpper(codec);
    CodecMapKeys(fields, key);
    forall i | 0 <= i < |fields| && IsCodecField(fields[i]) && fields[i].name == AV_CODEC_ID_PREFIX + key
      ensures RegisteredCodecId(CodecMap(fields), codec, codecType) == Success(fields[i].value)
    {
      CodecMapValue(fields, i);
      assert (AV_CODEC_ID_PREFIX + key)[|AV_CODEC_ID_PREFIX|..] == key;
      assert CodecName(fields[i]) == key;
    }
  }

  // ---------------------------------------------------------------------------
  // populate
  // ---------------------------------------------------------------------------

  /** The frame rate `populate` sets: the configured one, else the source's clamped to the bounds. */
  function SelectFrameRate(frameRate: Option<int>, frameRateMin: Option<int>, frameRateMax: Option<int>,
                           source: real): real
  {
    if frameRate.Some? then frameRate.value as real
    else if frameRateMin.Some? && source < frameRateMin.value as real then frameRateMin.value as real
    else if frameRateMax.Some? && source > frameRateMax.value as real then frameRateMax.value as real
    else source
  }

  /** The sample rate `populate` sets, by the same rule on integers. */
  function SelectSampleRate(sampleRate: Option<int>, sampleRateMin: Option<int>, sampleRateMax: Option<int>,
                            source: int): int
  {
    if sampleRate.Some? then sampleRate.value
    else if sampleRateMin.Some? && source < sampleRateMin.value then sampleRateMin.value
    else if sampleRateMax.Some? && source > sampleRateMax.value then sampleRateMax.value
    else source
  }

  /**
   * Without an explicit rate, the source's rate is kept exactly when it lies within the
   * configured bounds; otherwise the nearer bound replaces it, so consistent bounds always hold.
   */
  lemma FrameRateWithinBounds(frameRateMin: Option<int>, frameRateMax: Option<int>, source: real)
    requires frameRateMin.Some? && frameRateMax.Some? ==> frameRateMin.value <= frameRateMax.value
    ensures var r := SelectFrameRate(None, frameRateMin, frameRateMax, source);
      (r == source <==> (frameRateMin.None? || source >= frameRateMin.value as real)
                        && (frameRateMax.None? || source <= frameRateMax.value as real))
      && (frameRateMin.Some? ==> r >= frameRateMin.value as real)
      && (frameRateMax.Some? ==> r <= frameRateMax.value as real)
  {
  }

  /** An explicit rate wins over the bounds and the source. */
  lemma ExplicitFrameRateWins(frameRate: int, frameRateMin: Option<int>, frameRateMax: Option<int>, source: real)
    ensures SelectFrameRate(Some(frameRate), frameRateMin, frameRateMax, source) == frameRate as real
  {
  }

  /** The sample rate follows the frame-rate rule exactly. */
  lemma SampleRateFollowsFrameRateRule(sampleRate: Option<int>, sampleRateMin: Option<int>,
                                       sampleRateMax: Option<int>, source: int)
    ensures SelectSampleRate(sampleRate, sampleRateMin, sampleRateMax, source) as real
         == SelectFrameRate(sampleRate, sampleRateMin, sampleRateMax, source as real)
  {
  }

  function OrElse<T>(o: Option<T>, default: T): T {
    if o.Some? then o.value else default
  }

  /** `map.forEach(recorder::setOption)` over a nullable map: each entry replaces the option of its key. */
  function WithOptions(options: map<string, string>, added: Option<map<string, string>>): map<string, string> {
    if added.Some? then options + added.value else options
  }

  /** The rate `populate` sets on the recorder for a source. */
  function TargetRate(properties: ConverterProperties, info: SourceInfo): real {
    SelectFrameRate(properties.frameRate, properties.frameRateMin, properties.frameRateMax, info.frameRate)
  }

  /**
   * `populate(recorder, grabber, videoCodecId, audioCodecId)`: each recorder setting is the
   * configured value, else the source's, else left as it was. The audio channels are copied
   * from the source first of all; the remaining audio settings only when it has channels.
   */
  method Populate(recorder: FrameRecorder, grabber: FrameGrabber, properties: ConverterProperties,
                  videoCodecId: Option<int>, audioCodecId: Option<int>)
    modifies recorder
    ensures recorder.recorded == old(recorder.recorded)
    ensures recorder.settings.imageWidth == OrElse(properties.imageWidth, grabber.info.imageWidth)
    ensures recorder.settings.imageHeight == OrElse(properties.imageHeight, grabber.info.imageHeight)
    ensures recorder.settings.audioChannels == grabber.info.audioChannels
    ensures recorder.settings.aspectRatio == OrElse(properties.aspectRatio, old(recorder.settings.aspectRatio))
    ensures recorder.settings.metadata
         == if properties.skipMetadata then old(recorder.settings.metadata) else grabber.info.metadata
    ensures recorder.settings.format == if properties.format.Some? then properties.format else old(recorder.settings.format)
    ensures recorder.settings.options == WithOptions(old(recorder.settings.options), properties.option)
    ensures recorder.settings.videoCodec == OrElse(videoCodecId, old(recorder.settings.videoCodec))
    ensures recorder.settings.videoCodecName
         == if properties.videoEncoder.Some? then properties.videoEncoder else old(recorder.settings.videoCodecName)
    ensures recorder.settings.videoOptions == WithOptions(old(recorder.settings.videoOptions), properties.videoOption)
    ensures recorder.settings.videoBitrate == OrElse(properties.videoBitrate, old(recorder.settings.videoBitrate))
    ensures recorder.settings.videoQuality == OrElse(properties.videoQuality, old(recorder.settings.videoQuality))
    ensures recorder.settings.frameRate == TargetRate(properties, grabber.info)
    ensures recorder.settings.displayRotation == OrElse(properties.displayRotation, grabber.info.displayRotation)
    ensures recorder.settings.videoMetadata
         == if properties.skipVideoMetadata then old(recorder.settings.videoMetadata) else grabber.info.videoMetadata
    ensures grabber.info.audioChannels == 0 ==>
      recorder.settings.audioCodec == old(recorder.settings.audioCodec)
      && recorder.settings.audioCodecName == old(recorder.settings.audioCodecName)
      && recorder.settings.audioOptions == old(recorder.settings.audioOptions)
      && recorder.settings.audioBitrate == old(recorder.settings.audioBitrate)
      && recorder.settings.sampleRate == old(recorder.settings.sampleRate)
      && recorder.settings.audioMetadata == old(recorder.settings.audioMetadata)
    ensures grabber.info.audioChannels != 0 ==>
      recorder.settings.audioCodec == OrElse(audioCodecId, old(recorder.settings.audioCodec))
      && recorder.settings.audioCodecName
         == (if properties.audioEncoder.Some? then properties.audioEncoder else old(recorder.settings.audioCodecName))
      && recorder.settings.audioOptions == WithOptions(old(recorder.settings.audioOptions), properties.audioOption)
      && recorder.settings.audioBitrate == OrElse(properties.audioBitrate, old(recorder.settings.audioBitrate))
      && recorder.settings.sampleRate
         == SelectSampleRate(properties.sampleRate, properties.sampleRateMin, properties.sampleRateMax,
                             grabber.info.sampleRate)
      && recorder.settings.audioMetadata
         == (if properties.skipAudioMetadata then old(recorder.settings.audioMetadata) else grabber.info.audioMetadata)
  {
    PopulateContainer(recorder, grabber.info, properties);
    PopulateVideo(recorder, grabber.info, properties, videoCodecId);
    PopulateVideoStream(recorder, grabber.info, properties);
    if grabber.info.audioChannels == 0 {
      return;
    }
    PopulateAudio(recorder, grabber.info, properties, audioCodecId);
  }

  /** The container settings `populate` writes first. */
  method PopulateContainer(recorder: FrameRecorder, info: SourceInfo, properties: ConverterProperties)
    modifies recorder
    ensures recorder.recorded == old(recorder.recorded)
    ensures recorder.settings == old(recorder.settings).(
      imageWidth := OrElse(properties.imageWidth, info.imageWidth),
      imageHeight := OrElse(properties.imageHeight, info.imageHeight),
      audioChannels := info.audioChannels,
      aspectRatio := OrElse(properties.aspectRatio, old(recorder.settings.aspectRatio)),
      metadata := if properties.skipMetadata then old(recorder.settings.metadata) else info.metadata,
      format := if properties.format.Some? then properties.format else old(recorder.settings.format),
      options := WithOptions(old(recorder.settings.options), properties.option))
  {
    var s := recorder.settings;
    s := s.(imageWidth := OrElse(properties.imageWidth, info.imageWidth));
    s := s.(imageHeight := OrElse(properties.imageHeight, info.imageHeight));
    s := s.(audioChannels := info.audioChannels);
    if properties.aspectRatio.Some? {
      s := s.(aspectRatio := properties.aspectRatio.value);
    }
    if !properties.skipMetadata {
      s := s.(metadata := info.metadata);
    }
    if properties.format.Some? {
      s := s.(format := properties.format);
    }
    if properties.option.Some? {
      s := s.(options := s.options + properties.option.value);
    }
    recorder.settings := s;
  }

  /** The video encoder settings `populate` writes. */
  method PopulateVideo(recorder: FrameRecorder, info: SourceInfo, properties: ConverterProperties,
                       videoCodecId: Option<int>)
    modifies recorder
    ensures recorder.recorded == old(recorder.recorded)
    ensures recorder.settings == old(recorder.settings).(
      videoCodec := OrElse(videoCodecId, old(recorder.settings.videoCodec)),
      videoCodecName := if properties.videoEncoder.Some? then properties.videoEncoder else old(recorder.settings.videoCodecName),
      videoOptions := WithOptions(old(recorder.settings.videoOptions), properties.videoOption),
      videoBitrate := OrElse(properties.videoBitrate, old(recorder.settings.videoBitrate)),
      videoQuality := OrElse(properties.videoQuality, old(recorder.settings.videoQuality)))
  {
    var s := recorder.settings;
    if videoCodecId.Some? {
      s := s.(videoCodec := videoCodecId.value);
    }
    if properties.videoEncoder.Some? {
      s := s.(videoCodecName := properties.videoEncoder);
    }
    if properties.videoOption.Some? {
      s := s.(videoOptions := s.videoOptions + properties.videoOption.value);
    }
    if properties.videoBitrate.Some? {
      s := s.(videoBitrate := properties.videoBitrate.value);
    }
    if properties.videoQuality.Some? {
      s := s.(videoQuality := properties.videoQuality.value);
    }
    recorder.settings := s;
  }

  /** The frame rate, display rotation and video metadata `populate` writes. */
  method PopulateVideoStream(recorder: FrameRecorder, info: SourceInfo, properties: ConverterProperties)
    modifies recorder
    ensures recorder.recorded == old(recorder.recorded)
    ensures recorder.settings == old(recorder.settings).(
      frameRate := TargetRate(properties, info),
      displayRotation := OrElse(properties.displayRotation, info.displayRotation),
      videoMetadata := if properties.skipVideoMetadata then old(recorder.settings.videoMetadata) else info.videoMetadata)
  {
    var s := recorder.settings;
    if properties.frameRate.None? {
      if properties.frameRateMin.Some? && info.frameRate < properties.frameRateMin.value as real {
        s := s.(frameRate := properties.frameRateMin.value as real);
      } else if properties.frameRateMax.Some? && info.frameRate > properties.frameRateMax.value as real {
        s := s.(frameRate := properties.frameRateMax.value as real);
      } else {
        s := s.(frameRate := info.frameRate);
      }
    } else {
      s := s.(frameRate := properties.frameRate.value as real);
    }
    s := s.(displayRotation := OrElse(properties.displayRotation, info.displayRotation));
    if !properties.skipVideoMetadata {
      s := s.(videoMetadata := info.videoMetadata);
    }
    recorder.settings := s;
  }

  /** The audio settings `populate` writes for a source with audio channels. */
  method PopulateAudio(recorder: FrameRecorder, info: SourceInfo, properties: ConverterProperties,
                       audioCodecId: Option<int>)
    modifies recorder
    ensures recorder.recorded == old(recorder.recorded)
    ensures recorder.settings == old(recorder.settings).(
      audioChannels := info.audioChannels,
      audioCodec := OrElse(audioCodecId, old(recorder.settings.audioCodec)),
      audioCodecName := if properties.audioEncoder.Some? then properties.audioEncoder else old(recorder.settings.audioCodecName),
      audioOptions := WithOptions(old(recorder.settings.audioOptions), properties.audioOption),
      audioBitrate := OrElse(properties.audioBitrate, old(recorder.settings.audioBitrate)),
      sampleRate := SelectSampleRate(properties.sampleRate, properties.sampleRateMin, properties.sampleRateMax, info.sampleRate),
      audioMetadata := if properties.skipAudioMetadata then old(recorder.settings.audioMetadata) else info.audioMetadata)
  {
    var s := recorder.settings;
    s := s.(audioChannels := info.audioChannels);
    if audioCodecId.Some? {
      s := s.(audioCodec := audioCodecId.value);
    }
    if properties.audioEncoder.Some? {
      s := s.(audioCodecName := properties.audioEncoder);
    }
    if properties.audioOption.Some? {
      s := s.(audioOptions := s.audioOptions + properties.audioOption.value);
    }
    if properties.audioBitrate.Some? {
      s := s.(audioBitrate := properties.audioBitrate.value);
    }
    if properties.sampleRate.None? {
      if properties.sampleRateMin.Some? && info.sampleRate < properties.sampleRateMin.value {
        s := s.(sampleRate := properties.sampleRateMin.value);
      } else if properties.sampleRateMax.Some? && info.sampleRate > properties.sampleRateMax.value {
        s := s.(sampleRate := properties.sampleRateMax.value);
      } else {
        s := s.(sampleRate := info.sampleRate);
      }
    } else {
      s := s.(sampleRate := properties.sampleRate.value);
    }
    if !properties.skipAudioMetadata {
      s := s.(audioMetadata := info.audioMetadata);
    }
    recorder.settings := s;
  }

  // ---------------------------------------------------------------------------
  // convert and recordAllFrames
  // ---------------------------------------------------------------------------

  /** `getLengthInTime() / 1000000L` in seconds. */
  function LengthInSec(info: SourceInfo): real {
    info.lengthInTime as real / 1000000.0
  }

  /**
   * What the drop/duplicate procedure needs to be defined: when the whole rates differ, a known
   * nonzero length and positive rates. Otherwise `step` is not a positive number (zero, an
   * infinity or NaN, or negative), and the inner loop of `convert` does not end at the first
   * image frame when `round(0 * step)` is 0.
   */
  predicate Resamplable(info: SourceInfo, targetRate: real) {
    info.frameRate.Floor != targetRate.Floor ==> info.frameRate > 0.0 && info.lengthInTime != 0 && targetRate > 0.0
  }

  /** The step `convert` computes, which is the ratio of the two rates whatever the sign of the length. */
  function ResampleStep(info: SourceInfo, targetRate: real): (step: real)
    requires info.frameRate > 0.0 && info.lengthInTime != 0 && targetRate > 0.0
    ensures LengthInSec(info) * targetRate != 0.0 && step == Step(info.frameRate, LengthInSec(info), targetRate)
    ensures step > 0.0 && step == info.frameRate / targetRate
  {
    StepIsRateRatio(info.frameRate, LengthInSec(info), targetRate);
    Step(info.frameRate, LengthInSec(info), targetRate)
  }

  /**
   * Whether `convert` ends on the frames `grab` returns: the step is a positive number, or no
   * image frame ever reaches the inner loop that reads it.
   */
  predicate ConvertEnds(frames: seq<Frame>, info: SourceInfo, targetRate: real) {
    Resamplable(info, targetRate) || ImageFree(frames)
  }

  /**
   * What `convert` records for the remaining frames: all of them when the whole parts of the
   * two rates agree, else the drop/duplicate cadence. A source that is not `Resamplable` gets
   * here only without image frames, and those are recorded whole, as the cadence records them
   * at any positive step (`ConvertedWithoutImages`).
   */
  function ConvertedFrames(frames: seq<Frame>, info: SourceInfo, targetRate: real): seq<Frame>
    requires ConvertEnds(frames, info, targetRate)
  {
    if info.frameRate.Floor == targetRate.Floor || !Resamplable(info, targetRate) then frames
    else Resample(frames, ResampleStep(info, targetRate)).output
  }

  /** Frames without images come out of `convert` unchanged, whatever the two rates. */
  lemma ConvertedWithoutImages(frames: seq<Frame>, info: SourceInfo, targetRate: real)
    requires ImageFree(frames)
    ensures ConvertedFrames(frames, info, targetRate) == frames
  {
    if info.frameRate.Floor != targetRate.Floor && Resamplable(info, targetRate) {
      ResampleImageFree(frames, ResampleStep(info, targetRate));
    }
  }

  /**
   * `recordAllFrames`: every frame `grab` returns is recorded once, in order; the exception that
   * ends a broken stream is passed on.
   */
  method RecordAllFrames(grabber: FrameGrabber, recorder: FrameRecorder) returns (thrown: Option<Throwable>)
    requires grabber.Valid()
    modifies grabber, recorder
    ensures grabber.Valid() && grabber.position == grabber.delivered && recorder.settings == old(recorder.settings)
    ensures recorder.recorded == old(recorder.recorded) + grabber.frames[old(grabber.position)..grabber.delivered]
    ensures thrown == if grabber.breaks then Some(GrabError) else None
  {
    ghost var start := grabber.position;
    var frame := grabber.Grab();
    while Grabbed(frame)
      invariant grabber.Valid() && start <= grabber.position && recorder.settings == old(recorder.settings)
      invariant !Grabbed(frame) ==> grabber.position == grabber.delivered && frame == grabber.End()
      invariant Grabbed(frame) ==> start < grabber.position && frame.value.value == grabber.frames[grabber.position - 1]
      invariant recorder.recorded
             == old(recorder.recorded) + grabber.frames[start..if Grabbed(frame) then grabber.position - 1 else grabber.position]
      decreases grabber.delivered - grabber.position, Grabbed(frame)
    {
      assert grabber.frames[start..grabber.position]
          == grabber.frames[start..grabber.position - 1] + [frame.value.value];
      recorder.Record(frame.value.value);
      frame := grabber.Grab();
    }
    thrown := if frame.Failure? then Some(frame.error) else None;
  }

  /**
   * The inner loop of `convert`: the image frame with grabbed index `grabbedFrameIndex` is
   * recorded while `round(recordedFrameNumber * step)` names that index.
   */
  method RecordImage(recorder: FrameRecorder, f: Frame, recordedFrameNumber: nat, grabbedFrameIndex: nat, step: real)
    returns (recordedAfter: nat)
    requires step > 0.0
    modifies recorder
    ensures recordedAfter == recordedFrameNumber + Copies(recordedFrameNumber, grabbedFrameIndex, step)
    ensures recorder.recorded == old(recorder.recorded) + Repeat(f, Copies(recordedFrameNumber, grabbedFrameIndex, step))
    ensures recorder.settings == old(recorder.settings)
  {
    recordedAfter := recordedFrameNumber;
    while RequiredIndex(recordedAfter, step) == grabbedFrameIndex
      invariant recordedFrameNumber <= recordedAfter
      invariant recorder.recorded == old(recorder.recorded) + Repeat(f, recordedAfter - recordedFrameNumber)
      invariant Copies(recordedFrameNumber, grabbedFrameIndex, step)
             == recordedAfter - recordedFrameNumber + Copies(recordedAfter, grabbedFrameIndex, step)
      invariant recorder.settings == old(recorder.settings)
      decreases Bound(grabbedFrameIndex, step) - recordedAfter
    {
      BelowBound(recordedAfter, grabbedFrameIndex, step);
      recorder.Record(f);
      assert Repeat(f, recordedAfter + 1 - recordedFrameNumber) == Repeat(f, recordedAfter - recordedFrameNumber) + [f];
      recordedAfter := recordedAfter + 1;
    }
  }

  /**
   * The body of the outer loop of `convert`: a frame without an image is recorded once; an image
   * frame goes to the inner loop, and the grabbed index moves past it. This is one `Advance`.
   */
  method RecordFrame(recorder: FrameRecorder, f: Frame, recordedFrameNumber: nat, grabbedFrameIndex: nat, step: real)
    returns (recordedAfter: nat, grabbedAfter: nat)
    requires f.hasImage ==> step > 0.0
    modifies recorder
    ensures !f.hasImage ==>
      recorder.recorded == old(recorder.recorded) + [f] && recordedAfter == recordedFrameNumber
      && grabbedAfter == grabbedFrameIndex
    ensures step > 0.0 ==>
      Cadence(recorder.recorded, recordedAfter, grabbedAfter)
      == Advance(Cadence(old(recorder.recorded), recordedFrameNumber, grabbedFrameIndex), f, step)
    ensures recorder.settings == old(recorder.settings)
  {
    if !f.hasImage {
      recorder.Record(f);
      return recordedFrameNumber, grabbedFrameIndex;
    }
    recordedAfter := RecordImage(recorder, f, recordedFrameNumber, grabbedFrameIndex, step);
    grabbedAfter := grabbedFrameIndex + 1;
  }

  /**
   * The outer loop of the drop/duplicate branch of `convert`, for the `step` it computed. A step
   * that is not positive is never read, since the frames to grab then carry no image.
   */
  method RecordResampled(grabber: FrameGrabber, recorder: FrameRecorder, step: real) returns (thrown: Option<Throwable>)
    requires grabber.Valid()
    requires step > 0.0 || ImageFree(grabber.frames[grabber.position..grabber.delivered])
    modifies grabber, recorder
    ensures grabber.Valid() && grabber.position == grabber.delivered && recorder.settings == old(recorder.settings)
    ensures step > 0.0 ==>
      recorder.recorded == old(recorder.recorded) + Resample(grabber.frames[old(grabber.position)..grabber.delivered], step).output
    ensures step <= 0.0 ==>
      recorder.recorded == old(recorder.recorded) + grabber.frames[old(grabber.position)..grabber.delivered]
    ensures thrown == if grabber.breaks then Some(GrabError) else None
  {
    ghost var start, base := grabber.position, recorder.recorded;
    ghost var done := grabber.position;
    var recordedFrameNumber: nat, grabbedFrameIndex: nat := 0, 0;
    var frame := grabber.Grab();
    while Grabbed(frame)
      invariant grabber.Valid() && start <= done <= grabber.position && recorder.settings == old(recorder.settings)
      invariant !Grabbed(frame) ==> done == grabber.position == grabber.delivered && frame == grabber.End()
      invariant Grabbed(frame) ==> done == grabber.position - 1 && frame.value.value == grabber.frames[done]
      invariant step > 0.0 ==> var c := Resample(grabber.frames[start..done], step);
        recorder.recorded == base + c.output && recordedFrameNumber == c.recorded && grabbedFrameIndex == c.grabbed
      invariant step <= 0.0 ==> recorder.recorded == base + grabber.frames[start..done]
      decreases grabber.delivered - done
    {
      var f := frame.value.value;
      assert grabber.frames[start..grabber.delivered][done - start] == f;
      if step > 0.0 {
        ghost var c := Resample(grabber.frames[start..done], step);
        ResampleSliceNext(grabber.frames, start, done, step);
        AdvanceAfter(base, c, f, step);
      } else {
        SliceNext(grabber.frames, start, done);
      }
      recordedFrameNumber, grabbedFrameIndex := RecordFrame(recorder, f, recordedFrameNumber, grabbedFrameIndex, step);
      done := done + 1;
      frame := grabber.Grab();
    }
    thrown := if frame.Failure? then Some(frame.error) else None;
  }

  /**
   * `convert(grabber, recorder)`: records the frames `grab` returns as `ConvertedFrames` says,
   * and passes on the exception of a broken stream.
   */
  method Convert(grabber: FrameGrabber, recorder: FrameRecorder) returns (thrown: Option<Throwable>)
    requires grabber.Valid()
    requires ConvertEnds(grabber.frames[grabber.position..grabber.delivered], grabber.info, recorder.settings.frameRate)
    modifies grabber, recorder
    ensures grabber.Valid() && grabber.position == grabber.delivered && recorder.settings == old(recorder.settings)
    ensures recorder.recorded == old(recorder.recorded)
      + ConvertedFrames(grabber.frames[old(grabber.position)..grabber.delivered], grabber.info, recorder.settings.frameRate)
    ensures thrown == if grabber.breaks then Some(GrabError) else None
  {
    var grabberFrameRate := grabber.info.frameRate;
    var lengthInSec := LengthInSec(grabber.info);
    if grabberFrameRate.Floor == recorder.settings.frameRate.Floor {
      thrown := RecordAllFrames(grabber, recorder);
      return;
    }
    var totalFrameNum := grabberFrameRate * lengthInSec;
    var newFrameNum := lengthInSec * recorder.settings.frameRate;
    // Division by zero gives an infinity or NaN in IEEE arithmetic; the model puts 0.0 there.
    // Either way the step is then not positive, and `ConvertEnds` leaves no image frame to read it.
    var step := if newFrameNum != 0.0 then totalFrameNum / newFrameNum else 0.0;
    ghost var frames := grabber.frames[grabber.position..grabber.delivered];
    if Resamplable(grabber.info, recorder.settings.frameRate) {
      assert step == ResampleStep(grabber.info, recorder.settings.frameRate);
    } else if step > 0.0 {
      ResampleImageFree(frames, step);
    }
    thrown := RecordResampled(grabber, recorder, step);
  }

  // ---------------------------------------------------------------------------
  // processFile, the buildTargetFilePath override, and run
  // ---------------------------------------------------------------------------

  /**
   * What the converter takes from outside the model: `avcodec`'s public fields, the encoder
   * lookups, the source each path opens as (`None`: `grabber.start()` fails), the recorder's
   * library defaults, and the glob matcher.
   */
  datatype Environment = Environment(
    fields: seq<Field>,
    encoders: Encoders,
    sources: Path -> Option<Source>,
    defaults: RecorderSettings,
    matches: (string, string) -> bool)

  /**
   * `convert` ends on the source `p` opens as, if it opens, at the rate `populate` chooses for
   * it: on a source where it would not end, `processFile` does not return.
   */
  predicate ConvertsAt(properties: ConverterProperties, sources: Path -> Option<Source>, p: Path) {
    sources(p).Some? ==>
      var source := sources(p).value;
      ConvertEnds(source.frames[..source.Delivered()], source.info, TargetRate(properties, source.info))
  }

  /**
   * The `FrameGrabber.Exception` of a source that cannot be opened or read to its end; JavaCV's
   * message is not modelled.
   */
  function GrabberFailure(sourceFile: Path): Throwable {
    GrabError
  }

  /** The `FrameRecorder.Exception` of a target that cannot be opened for writing. */
  function RecorderFailure(targetFile: Path): Throwable {
    Throwable(FrameRecorderException, "", None)
  }

  /** Whether `recorder.start()` can create the target file. */
  predicate CanCreateFile(dirs: set<Path>, unwritable: set<Path>, p: Path) {
    p !in dirs && HasFileName(p) && ContainingDir(p) in dirs && p !in unwritable
  }

  /** What `processFile` leaves behind: the recorded frames or the exception, and the files afterwards. */
  datatype Processed = Processed(result: Result<seq<Frame>, Throwable>, files: set<Path>)

  /**
   * `processFile(sourceFile, targetFile, ...)`: opening the source, then the target, then
   * recording the converted frames into the target. A stream that breaks after the target was
   * created throws, and the partly written target stays.
   */
  function Process(dirs: set<Path>, files: set<Path>, unwritable: set<Path>, properties: ConverterProperties,
                   sources: Path -> Option<Source>, sourceFile: Path, targetFile: Path): (p: Processed)
    requires ConvertsAt(properties, sources, sourceFile)
    ensures p.files == files || (p.files == files + {targetFile} && targetFile !in dirs)
    ensures p.result.Success? ==> p.files == files + {targetFile}
  {
    var source := sources(sourceFile);
    if source.None? then Processed(Failure(GrabberFailure(sourceFile)), files)
    else if !CanCreateFile(dirs, unwritable, targetFile) then Processed(Failure(RecorderFailure(targetFile)), files)
    else if source.value.Breaks() then Processed(Failure(GrabberFailure(sourceFile)), files + {targetFile})
    else
      var info := source.value.info;
      Processed(Success(ConvertedFrames(source.value.frames, info, TargetRate(properties, info))), files + {targetFile})
  }

  method ProcessFile(fs: FileSystem, properties: ConverterProperties, env: Environment, sourceFile: Path,
                     targetFile: Path, videoCodecId: Option<int>, audioCodecId: Option<int>)
    returns (r: Result<seq<Frame>, Throwable>)
    requires fs.Valid() && ConvertsAt(properties, env.sources, sourceFile)
    modifies fs
    ensures fs.Valid() && fs.dirs == old(fs.dirs)
    ensures Processed(r, fs.files)
         == Process(old(fs.dirs), old(fs.files), fs.unwritable, properties, env.sources, sourceFile, targetFile)
  {
    var source := env.sources(sourceFile);
    if source.None? {
      return Failure(GrabberFailure(sourceFile));
    }
    var grabber := new FrameGrabber(sourceFile, source.value);
    var recorder := new FrameRecorder(targetFile, env.defaults);
    Populate(recorder, grabber, properties, videoCodecId, audioCodecId);
    var started := fs.CreateFile(targetFile);
    if !started {
      return Failure(RecorderFailure(targetFile));
    }
    assert fs.files == old(fs.files) + {targetFile};
    assert recorder.settings.frameRate == TargetRate(properties, source.value.info);
    assert grabber.frames[grabber.position..grabber.delivered] == source.value.frames[..source.value.Delivered()];
    var thrown := Convert(grabber, recorder);
    if thrown.Some? {
      assert thrown.value == GrabberFailure(sourceFile) && source.value.Breaks();
      return Failure(thrown.value);
    }
    assert source.value.frames[..source.value.Delivered()] == source.value.frames;
    assert recorder.recorded == ConvertedFrames(source.value.frames, source.value.info, TargetRate(properties, source.value.info));
    r := Success(recorder.recorded);
  }

  /** The target of the override: the mirrored target, with `fileExt` applied when it is configured. */
  function ConverterTarget(target: Path, fileExt: Option<string>): Path
    requires HasFileName(target)
  {
    if fileExt.Some? then WithExtension(target, fileExt.value) else target
  }

  /** The `buildTargetFilePath(sourceFile, setting)` override as a function of the directories before it. */
  function BuildConverterTarget(dirs: set<Path>, files: set<Path>, unwritable: set<Path>,
                                properties: ConverterProperties, sourceFile: Path, setting: Setting): (b: Built)
    requires Closed(dirs) && dirs !! files && Beneath(setting.source, sourceFile)
    ensures Closed(b.dirs) && b.dirs !! files
  {
    var built := BuildTarget(dirs, files, unwritable, ACTION_NAME, setting.source, sourceFile, setting.destination);
    BuildTargetEffect(dirs, files, unwritable, ACTION_NAME, setting.source, sourceFile, setting.destination);
    if built.result.Success? then Built(Success(ConverterTarget(built.result.value, properties.fileExt)), built.dirs)
    else built
  }

  method BuildTargetFilePath(fs: FileSystem, properties: ConverterProperties, sourceFile: Path, setting: Setting)
    returns (r: Result<Path, Throwable>)
    requires fs.Valid() && Beneath(setting.source, sourceFile)
    modifies fs
    ensures fs.Valid() && fs.files == old(fs.files)
    ensures Built(r, fs.dirs) == BuildConverterTarget(old(fs.dirs), fs.files, fs.unwritable, properties, sourceFile, setting)
  {
    ghost var dirs := fs.dirs;
    r := BuildTargetFilePathFor(fs, ACTION_NAME, sourceFile, setting);
    BuildTargetEffect(dirs, fs.files, fs.unwritable, ACTION_NAME, setting.source, sourceFile, setting.destination);
    if r.Success? && properties.fileExt.Some? {
      r := Success(WithExtension(r.value, properties.fileExt.value));
    }
  }

  /** What happened to one enumerated file. */
  datatype Outcome =
    | Converted(source: Path, target: Path, frames: seq<Frame>)
    | Skipped(source: Path, target: Path)
    | Failed(source: Path, target: Path, cause: Throwable)

  /** The file system, the per-file log, and the exception that ends the run, if any. */
  datatype RunState = RunState(dirs: set<Path>, files: set<Path>, log: seq<Outcome>, error: Option<Throwable>)

  function ConvertFailed(sourceFile: Path): string {
    "Failed to convert the source file " + ToString(sourceFile)
  }

  /** One iteration of the loop of `run`. */
  function ConvertFile(s: RunState, unwritable: set<Path>, properties: ConverterProperties, setting: Setting,
                       env: Environment, sourceFile: Path): (r: RunState)
    requires Closed(s.dirs) && s.dirs !! s.files && Beneath(setting.source, sourceFile)
    requires ConvertsAt(properties, env.sources, sourceFile)
    ensures Closed(r.dirs) && r.dirs !! r.files
  {
    var built := BuildConverterTarget(s.dirs, s.files, unwritable, properties, sourceFile, setting);
    match built.result
    case Failure(e) => RunState(built.dirs, s.files, s.log, Some(e))
    case Success(target) =>
      if setting.skipOnExistingTarget && (target in built.dirs || target in s.files) then
        RunState(built.dirs, s.files, s.log + [Skipped(sourceFile, target)], None)
      else
        var p := Process(built.dirs, s.files, unwritable, properties, env.sources, sourceFile, target);
        match p.result
        case Success(frames) => RunState(built.dirs, p.files, s.log + [Converted(sourceFile, target, frames)], None)
        case Failure(e) =>
          if setting.failTolerant then RunState(built.dirs, p.files, s.log + [Failed(sourceFile, target, e)], None)
          else RunState(built.dirs, p.files, s.log, Some(NewActionRunException(ACTION_NAME, ConvertFailed(sourceFile), Some(e))))
  }

  /**
   * The loop of `run` over the enumerated files, from the state before them. An exception
   * thrown for one file ends the loop, and no later file is looked at.
   */
  function ConvertAll(paths: seq<Path>, s: RunState, unwritable: set<Path>, properties: ConverterProperties,
                      setting: Setting, env: Environment): (r: RunState)
    requires Closed(s.dirs) && s.dirs !! s.files
    requires forall p :: p in paths ==> Beneath(setting.source, p) && ConvertsAt(properties, env.sources, p)
    ensures Closed(r.dirs) && r.dirs !! r.files
    decreases |paths|
  {
    if paths == [] || s.error.Some? then s
    else ConvertAll(paths[1..], ConvertFile(s, unwritable, properties, setting, env, paths[0]), unwritable, properties,
                    setting, env)
  }

  /**
   * `convert` ends on every file the enumeration names, once both codecs are resolved: the run
   * opens no other source.
   */
  predicate RunEnds(properties: ConverterProperties, setting: Setting, tree: Entry, env: Environment) {
    var codecMap := CodecMap(env.fields);
    var stream := CreatePathStream(ACTION_NAME, setting, tree, env.matches);
    GetCodecId(properties.videoEncoder, properties.videoCodec, "video", codecMap, env.encoders).Success?
    && GetCodecId(properties.audioEncoder, properties.audioCodec, "audio", codecMap, env.encoders).Success?
    && stream.Success?
    ==> forall p :: p in stream.value.paths ==> ConvertsAt(properties, env.sources, p)
  }

  /**
   * `run(setting)`: both codecs are resolved before anything else; then the enumerated files are
   * converted in order; an unreadable directory met by the walk ends the run after the files
   * before it.
   */
  function RunSpec(dirs: set<Path>, files: set<Path>, unwritable: set<Path>, properties: ConverterProperties,
                   setting: Setting, tree: Entry, env: Environment): RunState
    requires Closed(dirs) && dirs !! files
    requires ValidPath(setting.source) && WellFormed(tree) && !tree.RegularFile?
    requires RunEnds(properties, setting, tree, env)
  {
    var codecMap := CodecMap(env.fields);
    var video := GetCodecId(properties.videoEncoder, properties.videoCodec, "video", codecMap, env.encoders);
    var audio := GetCodecId(properties.audioEncoder, properties.audioCodec, "audio", codecMap, env.encoders);
    if video.Failure? then RunState(dirs, files, [], Some(video.error))
    else if audio.Failure? then RunState(dirs, files, [], Some(audio.error))
    else
      match CreatePathStream(ACTION_NAME, setting, tree, env.matches)
      case Failure(e) => RunState(dirs, files, [], Some(e))
      case Success(walk) =>
        StreamPathsBeneath(ACTION_NAME, setting, tree, env.matches);
        var s := ConvertAll(walk.paths, RunState(dirs, files, [], None), unwritable, properties, setting, env);
        if s.error.None? && walk.failed then s.(error := Some(WalkFailed)) else s
  }

  /** One iteration of the loop of `run` on the file system: `ConvertFile`. */
  method ConvertSourceFile(fs: FileSystem, properties: ConverterProperties, setting: Setting, env: Environment,
                           sourceFile: Path, log: seq<Outcome>, videoCodecId: Option<int>, audioCodecId: Option<int>)
    returns (newLog: seq<Outcome>, error: Option<Throwable>)
    requires fs.Valid() && ConvertsAt(properties, env.sources, sourceFile) && Beneath(setting.source, sourceFile)
    modifies fs
    ensures fs.Valid()
    ensures RunState(fs.dirs, fs.files, newLog, error)
         == ConvertFile(RunState(old(fs.dirs), old(fs.files), log, None), fs.unwritable, properties, setting, env,
                        sourceFile)
  {
    var built := BuildTargetFilePath(fs, properties, sourceFile, setting);
    if built.Failure? {
      return log, Some(built.error);
    }
    var targetFile := built.value;
    if setting.skipOnExistingTarget && fs.Exists(targetFile) {
      return log + [Skipped(sourceFile, targetFile)], None;
    }
    var processed := ProcessFile(fs, properties, env, sourceFile, targetFile, videoCodecId, audioCodecId);
    if processed.Failure? {
      if !setting.failTolerant {
        return log, Some(NewActionRunException(ACTION_NAME, ConvertFailed(sourceFile), Some(processed.error)));
      }
      return log + [Failed(sourceFile, targetFile, processed.error)], None;
    }
    return log + [Converted(sourceFile, targetFile, processed.value)], None;
  }

  /** The loop of `run` on the file system: `ConvertSourceFile` for each path until one throws. */
  method ConvertPaths(fs: FileSystem, properties: ConverterProperties, setting: Setting, env: Environment,
                      paths: seq<Path>, videoCodecId: Option<int>, audioCodecId: Option<int>)
    returns (log: seq<Outcome>, error: Option<Throwable>)
    requires fs.Valid()
    requires forall p :: p in paths ==> Beneath(setting.source, p) && ConvertsAt(properties, env.sources, p)
    modifies fs
    ensures fs.Valid()
    ensures RunState(fs.dirs, fs.files, log, error)
         == ConvertAll(paths, RunState(old(fs.dirs), old(fs.files), [], None), fs.unwritable, properties, setting, env)
  {
    ghost var goal := ConvertAll(paths, RunState(fs.dirs, fs.files, [], None), fs.unwritable, properties, setting, env);
    log, error := [], None;
    var i := 0;
    Whole(paths);
    while i < |paths|
      invariant 0 <= i <= |paths| && fs.Valid() && error.None?
      invariant goal == ConvertAll(paths[i..], RunState(fs.dirs, fs.files, log, None), fs.unwritable, properties,
                                   setting, env)
    {
      ghost var st := RunState(fs.dirs, fs.files, log, None);
      DropNext(paths, i);
      ghost var next := ConvertFile(st, fs.unwritable, properties, setting, env, paths[i]);
      assert ConvertAll(paths[i..], st, fs.unwritable, properties, setting, env)
          == ConvertAll(paths[i + 1..], next, fs.unwritable, properties, setting, env);
      log, error := ConvertSourceFile(fs, properties, setting, env, paths[i], log, videoCodecId, audioCodecId);
      assert RunState(fs.dirs, fs.files, log, error) == next;
      if error.Some? {
        assert ConvertAll(paths[i + 1..], next, fs.unwritable, properties, setting, env) == next;
        return;
      }
      i := i + 1;
    }
  }

  /**
   * `run(setting)`: resolves both codecs, opens the enumeration, converts the files in order and
   * reports an unreadable directory met by the walk.
   */
  method Run(fs: FileSystem, properties: ConverterProperties, setting: Setting, tree: Entry, env: Environment)
    returns (log: seq<Outcome>, error: Option<Throwable>)
    requires fs.Valid()
    requires ValidPath(setting.source) && WellFormed(tree) && !tree.RegularFile?
    requires RunEnds(properties, setting, tree, env)
    modifies fs
    ensures fs.Valid()
    ensures RunState(fs.dirs, fs.files, log, error)
         == RunSpec(old(fs.dirs), old(fs.files), fs.unwritable, properties, setting, tree, env)
  {
    var codecMap := CodecMap(env.fields);
    var videoCodecId := GetCodecId(properties.videoEncoder, properties.videoCodec, "video", codecMap, env.encoders);
    if videoCodecId.Failure? {
      return [], Some(videoCodecId.error);
    }
    var audioCodecId := GetCodecId(properties.audioEncoder, properties.audioCodec, "audio", codecMap, env.encoders);
    if audioCodecId.Failure? {
      return [], Some(audioCodecId.error);
    }
    var stream := CreatePathStream(ACTION_NAME, setting, tree, env.matches);
    if stream.Failure? {
      return [], Some(stream.error);
    }
    StreamPathsBeneath(ACTION_NAME, setting, tree, env.matches);
    log, error := ConvertPaths(fs, properties, setting, env, stream.value.paths, videoCodecId.value, audioCodecId.value);
    if error.None? && stream.value.failed {
      error := Some(WalkFailed);
    }
  }

  // ---------------------------------------------------------------------------
  // Properties of the loop of run
  // ---------------------------------------------------------------------------

  /**
   * Without `fileExt` the target mirrors the source file under the destination; with a plain
   * extension it is the mirrored target in the same directory, carrying that extension.
   */
  lemma ConverterTargetLocation(dirs: set<Path>, files: set<Path>, unwritable: set<Path>,
                                properties: ConverterProperties, sourceFile: Path, setting: Setting)
    requires Closed(dirs) && dirs !! files && Beneath(setting.source, sourceFile)
    ensures var b := BuildConverterTarget(dirs, files, unwritable, properties, sourceFile, setting);
      var mirrored := TargetFile(setting.source, sourceFile, setting.destination);
      b.dirs == BuildTarget(dirs, files, unwritable, ACTION_NAME, setting.source, sourceFile, setting.destination).dirs
      && (b.result.Success? && properties.fileExt.None? ==> b.result.value == mirrored)
      && (b.result.Success? && properties.fileExt.Some? && PlainExtension(properties.fileExt.value)
          && ValidPath(setting.destination) ==>
            HasFileName(b.result.value) && ContainingDir(b.result.value) == ContainingDir(mirrored)
            && RemoveExtension(FileName(b.result.value)) == RemoveExtension(FileName(mirrored))
            && (properties.fileExt.value != "" ==> IsExtension(FileName(b.result.value), properties.fileExt.value)))
  {
    BuildTargetEffect(dirs, files, unwritable, ACTION_NAME, setting.source, sourceFile, setting.destination);
    var mirrored := TargetFile(setting.source, sourceFile, setting.destination);
    if properties.fileExt.Some? && PlainExtension(properties.fileExt.value) && ValidPath(setting.destination) {
      MirroredTargetIsValid(setting.source, sourceFile, setting.destination);
      WithExtensionSetsExtension(mirrored, properties.fileExt.value);
    }
  }

  /** A target built from a valid destination is a valid path. */
  lemma MirroredTargetIsValid(sourceDir: Path, sourceFile: Path, destinationDir: Path)
    requires Beneath(sourceDir, sourceFile) && ValidPath(destinationDir)
    ensures ValidPath(TargetFile(sourceDir, sourceFile, destinationDir))
  {
    var t := TargetFile(sourceDir, sourceFile, destinationDir);
    forall i | 0 <= i < |t| ensures IsName(t[i]) || (i == 0 && t[i] == Root) {
      if i >= |destinationDir| {
        assert t[i] == sourceFile[|sourceDir| + i - |destinationDir|];
      }
    }
  }

  /**
   * One iteration: a target-path failure ends the run whatever `failTolerant` says; a
   * conversion failure ends it only when the setting is not fail-tolerant, with the
   * `ActionRunException` naming the source and wrapping the cause; otherwise exactly one
   * outcome is logged for the file.
   */
  lemma ConvertFileOutcome(s: RunState, unwritable: set<Path>, properties: ConverterProperties, setting: Setting,
                           env: Environment, sourceFile: Path)
    requires Closed(s.dirs) && s.dirs !! s.files && Beneath(setting.source, sourceFile)
    requires ConvertsAt(properties, env.sources, sourceFile)
    ensures var b := BuildConverterTarget(s.dirs, s.files, unwritable, properties, sourceFile, setting);
      var r := ConvertFile(s, unwritable, properties, setting, env, sourceFile);
      (b.result.Failure? ==> r.error == Some(b.result.error) && r.log == s.log && r.files == s.files)
      && (b.result.Success? ==>
            var p := Process(b.dirs, s.files, unwritable, properties, env.sources, sourceFile, b.result.value);
            (r.error.Some? <==> !setting.failTolerant && p.result.Failure?
                                && !(setting.skipOnExistingTarget && (b.result.value in b.dirs || b.result.value in s.files)))
            && (r.error.Some? ==>
                  r.log == s.log
                  && r.error.value == NewActionRunException(ACTION_NAME, ConvertFailed(sourceFile), Some(p.result.error))
                  && (p.result.error.kind == FrameGrabberException || p.result.error.kind == FrameRecorderException))
            && (r.error.None? ==> |r.log| == |s.log| + 1 && r.log[..|s.log|] == s.log
                                  && r.log[|s.log|].source == sourceFile && r.log[|s.log|].target == b.result.value))
  {
    var b := BuildConverterTarget(s.dirs, s.files, unwritable, properties, sourceFile, setting);
    if b.result.Success? {
      var target := b.result.value;
      if !(setting.skipOnExistingTarget && (target in b.dirs || target in s.files)) {
        var p := Process(b.dirs, s.files, unwritable, properties, env.sources, sourceFile, target);
        if p.result.Failure? {
          assert p.result.error.kind == FrameGrabberException || p.result.error.kind == FrameRecorderException;
        }
      }
    }
  }

  /**
   * An existing target is skipped exactly when `skipOnExistingTarget` is set, and skipping
   * writes nothing; a converted file exists afterwards and holds the converted frames.
   */
  lemma SkipAndConvert(s: RunState, unwritable: set<Path>, properties: ConverterProperties, setting: Setting,
                       env: Environment, sourceFile: Path)
    requires Closed(s.dirs) && s.dirs !! s.files && Beneath(setting.source, sourceFile)
    requires ConvertsAt(properties, env.sources, sourceFile)
    ensures var b := BuildConverterTarget(s.dirs, s.files, unwritable, properties, sourceFile, setting);
      var r := ConvertFile(s, unwritable, properties, setting, env, sourceFile);
      b.result.Success? ==>
        var target := b.result.value;
        (r.error.None? && r.log[|s.log|].Skipped? <==>
           setting.skipOnExistingTarget && (target in b.dirs || target in s.files))
        && (r.error.None? && r.log[|s.log|].Skipped? ==> r.files == s.files)
        && (r.error.None? && r.log[|s.log|].Converted? ==>
              target in r.files && r.files == s.files + {target}
              && var source := env.sources(sourceFile);
              source.Some?
              && !source.value.Breaks()
              && r.log[|s.log|].frames
                 == ConvertedFrames(source.value.frames, source.value.info, TargetRate(properties, source.value.info)))
  {
  }

  /**
   * A stream that breaks after its target was created leaves that target behind: under
   * `failTolerant` the file is logged as failed, and a later pass over the same file with
   * `skipOnExistingTarget` skips it instead of converting it again.
   */
  lemma BrokenTargetSkippedLater(s: RunState, unwritable: set<Path>, properties: ConverterProperties,
                                 setting: Setting, env: Environment, sourceFile: Path)
    requires Closed(s.dirs) && s.dirs !! s.files && Beneath(setting.source, sourceFile)
    requires ConvertsAt(properties, env.sources, sourceFile)
    requires setting.failTolerant && setting.skipOnExistingTarget
    requires env.sources(sourceFile).Some? && env.sources(sourceFile).value.Breaks()
    ensures var b := BuildConverterTarget(s.dirs, s.files, unwritable, properties, sourceFile, setting);
      var r := ConvertFile(s, unwritable, properties, setting, env, sourceFile);
      b.result.Success? && CanCreateFile(b.dirs, unwritable, b.result.value) && b.result.value !in s.files ==>
        r.error.None? && r.log == s.log + [Failed(sourceFile, b.result.value, GrabberFailure(sourceFile))]
        && b.result.value in r.files
        && ConvertFile(r, unwritable, properties, setting, env, sourceFile).log
           == r.log + [Skipped(sourceFile, b.result.value)]
  {
    var b := BuildConverterTarget(s.dirs, s.files, unwritable, properties, sourceFile, setting);
    var r := ConvertFile(s, unwritable, properties, setting, env, sourceFile);
    BuildTargetEffect(s.dirs, s.files, unwritable, ACTION_NAME, setting.source, sourceFile, setting.destination);
    BuildTargetEffect(r.dirs, r.files, unwritable, ACTION_NAME, setting.source, sourceFile, setting.destination);
  }

  /** The sources of the logged outcomes, in order. */
  function Sources(log: seq<Outcome>): (r: seq<Path>)
    ensures |r| == |log| && forall i :: 0 <= i < |log| ==> r[i] == log[i].source
  {
    seq(|log|, i requires 0 <= i < |log| => log[i].source)
  }

  /**
   * Files are converted in enumeration order: the log names a prefix of the enumeration, all
   * of it unless an iteration threw, and then the thrown iteration is the one for the first
   * file not logged, after which nothing else happens.
   */
  lemma {:induction false} FilesProcessedInOrder(paths: seq<Path>, init: RunState, unwritable: set<Path>,
                                                 properties: ConverterProperties, setting: Setting, env: Environment)
    returns (k: nat)
    requires Closed(init.dirs) && init.dirs !! init.files
    requires forall p :: p in paths ==> Beneath(setting.source, p) && ConvertsAt(properties, env.sources, p)
    requires init.error.None?
    ensures var r := ConvertAll(paths, init, unwritable, properties, setting, env);
      k <= |paths| && Sources(r.log) == Sources(init.log) + paths[..k]
      && (r.error.None? <==> k == |paths|)
      && (r.error.Some? ==>
            var before := ConvertAll(paths[..k], init, unwritable, properties, setting, env);
            before.error.None?
            && r == ConvertFile(before, unwritable, properties, setting, env, paths[k]))
    decreases |paths|
  {
    if paths == [] {
      k := 0;
      assert Sources(init.log) + paths[..0] == Sources(init.log);
    } else {
      var next := ConvertFile(init, unwritable, properties, setting, env, paths[0]);
      LogStep(init, unwritable, properties, setting, env, paths[0]);
      if next.error.Some? {
        k := 0;
        assert ConvertAll(paths[1..], next, unwritable, properties, setting, env) == next;
        assert paths[..0] == [];
      } else {
        var rest := paths[1..];
        var k' := FilesProcessedInOrder(rest, next, unwritable, properties, setting, env);
        k := k' + 1;
        TakeFirst(paths, k);
        AppendFirst(Sources(init.log), paths[..k]);
      }
    }
  }

  /** An iteration that does not throw logs one outcome, for its file; one that throws logs none. */
  lemma LogStep(s: RunState, unwritable: set<Path>, properties: ConverterProperties, setting: Setting,
                env: Environment, sourceFile: Path)
    requires Closed(s.dirs) && s.dirs !! s.files && Beneath(setting.source, sourceFile)
    requires ConvertsAt(properties, env.sources, sourceFile)
    ensures var r := ConvertFile(s, unwritable, properties, setting, env, sourceFile);
      (r.error.None? ==> Sources(r.log) == Sources(s.log) + [sourceFile])
      && (r.error.Some? ==> r.log == s.log)
  {
    var r := ConvertFile(s, unwritable, properties, setting, env, sourceFile);
    ConvertFileOutcome(s, unwritable, properties, setting, env, sourceFile);
    if r.error.None? {
      var o := r.log[|s.log|];
      assert r.log == s.log + [o];
      SourcesAppend(s.log, o);
    }
  }

  lemma SourcesAppend(log: seq<Outcome>, o: Outcome)
    ensures Sources(log + [o]) == Sources(log) + [o.source]
  {
  }

  /** A codec that cannot be resolved stops the run before the enumeration: nothing is touched. */
  lemma CodecFailureTouchesNothing(dirs: set<Path>, files: set<Path>, unwritable: set<Path>,
                                   properties: ConverterProperties, setting: Setting, tree: Entry, env: Environment)
    requires Closed(dirs) && dirs !! files
    requires ValidPath(setting.source) && WellFormed(tree) && !tree.RegularFile?
    requires var codecMap := CodecMap(env.fields);
      GetCodecId(properties.videoEncoder, properties.videoCodec, "video", codecMap, env.encoders).Failure?
      || GetCodecId(properties.audioEncoder, properties.audioCodec, "audio", codecMap, env.encoders).Failure?
    ensures var r := RunSpec(dirs, files, unwritable, properties, setting, tree, env);
      r.dirs == dirs && r.files == files && r.log == [] && r.error.Some? && r.error.value.kind == ActionRunException
  {
  }

  /**
   * Under `failTolerant` a run that got past the codecs and the start of the enumeration stops
   * early only at a target directory that cannot be created, or at an unreadable directory
   * after every file met before it.
   */
  lemma FailTolerantRunStops(dirs: set<Path>, files: set<Path>, unwritable: set<Path>,
                             properties: ConverterProperties, setting: Setting, tree: Entry, env: Environment)
    requires Closed(dirs) && dirs !! files
    requires ValidPath(setting.source) && WellFormed(tree) && !tree.RegularFile?
    requires RunEnds(properties, setting, tree, env)
    requires setting.failTolerant
    requires var codecMap := CodecMap(env.fields);
      GetCodecId(properties.videoEncoder, properties.videoCodec, "video", codecMap, env.encoders).Success?
      && GetCodecId(properties.audioEncoder, properties.audioCodec, "audio", codecMap, env.encoders).Success?
    ensures var r := RunSpec(dirs, files, unwritable, properties, setting, tree, env);
      var stream := CreatePathStream(ACTION_NAME, setting, tree, env.matches);
      (stream.Failure? ==> r.error == Some(stream.error) && r.dirs == dirs && r.files == files)
      && (stream.Success? ==>
            var walk := stream.value;
            (r.error == Some(WalkFailed) ==> Sources(r.log) == walk.paths && walk.failed)
            && (r.error.Some? && r.error != Some(WalkFailed) ==>
                  exists k :: 0 <= k < |walk.paths| && Sources(r.log) == walk.paths[..k]
                    && Beneath(setting.source, walk.paths[k])
                    && r.error.value.kind == ActionRunException
                    && r.error.value.message
                       == ActionMessage(ACTION_NAME, TargetDirFailed(
                            ContainingDir(TargetFile(setting.source, walk.paths[k], setting.destination)), walk.paths[k]))))
  {
    var stream := CreatePathStream(ACTION_NAME, setting, tree, env.matches);
    if stream.Success? {
      var walk := stream.value;
      StreamPathsBeneath(ACTION_NAME, setting, tree, env.matches);
      var init := RunState(dirs, files, [], None);
      var s := ConvertAll(walk.paths, init, unwritable, properties, setting, env);
      var k := FilesProcessedInOrder(walk.paths, init, unwritable, properties, setting, env);
      assert Sources(init.log) == [];
      AppendEmpty(walk.paths[..k]);
      if s.error.Some? {
        var before := ConvertAll(walk.paths[..k], init, unwritable, properties, setting, env);
        ConvertFileOutcome(before, unwritable, properties, setting, env, walk.paths[k]);
        BuildTargetFails(before.dirs, before.files, unwritable, ACTION_NAME, setting.source, walk.paths[k],
                         setting.destination);
        assert s.error != Some(WalkFailed);
      } else {
        Whole(walk.paths);
      }
    }
  }
}

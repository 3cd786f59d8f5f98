# bfpu-cli in Dafny

bfpu-cli is a batch file-processing command-line tool built on Spring Boot. A session is
configured by a `Setting`. It holds a source directory, a destination directory, a recursion
flag, a file-name glob, `skipOnExistingTarget` and `failTolerant`. The requested actions run one
after another over the regular files found under the source. Each action writes its results to a
mirrored path under the destination. This project models the decision logic of the two working
actions and of the code around them:

- the `ffmpeg-converter` action (`Converter`, `Resampling`, `Media`). It resolves codecs
  through `CODEC_MAP` and the encoder lookups, and chooses the output frame rate, sample rate and
  other recorder settings. It converts every file with the frame drop/duplicate resampler. Its
  per-file loop honours skip-existing and fail-tolerant / fail-fast;
- the `command-line` action (`CommandLine`, `JavaText`). It fills the `%source%` / `%target%`
  template, splits it into arguments, applies the exit-code rule and logs the output at a
  configured level. It creates target directories, and handles failures per file;
- `AbstractAction` (`Actions`, `FileTree`, `FileNames`, `Paths`, `FileSystems`). It enumerates
  the files, mirrors a source file to its target (creating the missing directories) and
  rewrites the extension;
- `SettingImpl` (`Settings`): ordered validation of the source and creation of the destination;
- `Application.run` (`App`): resolution and execution of the requested action names, in order;
- `OnArrayPropertyContainsValueCondition` (`Condition`), the FFmpeg/SLF4J log-level mapping
  (`Logging`) and the message formats and hierarchy of the exceptions (`Exceptions`).

State that the Java code changes in place is modelled by classes:

- `FileSystem` holds the sets of directories and regular files, plus the paths that cannot be
  created.
- `FrameGrabber` holds the position in the source's frames, and how many of them it delivers
  before a broken stream throws.
- `FrameRecorder` holds the recorder settings and the recorded frames.

Each loop of the source is a method with a `while` loop. Every such method is proved against a
function of the state before it: `Resample`/`ConvertedFrames`, `ConvertAll`, `ProcessAll`,
`RunFrom`, `OutputEvents`, `MkDirs`, `BuildTarget` and `Construct`. The lemmas state the
promised properties about those functions. Java exceptions are `Throwable` values with a class
from the modelled hierarchy, a message and an optional cause. Null is `Option`. A path is a
sequence of segments, with `"/"` as the first segment of an absolute path.

Where the code decides, the model follows the code rather than the prose description of the
tool:

- `withExtension` compares extensions exactly (`FilenameUtils.isExtension`), not
  case-insensitively.
- `convert` has no guard for a zero source rate or a zero (unknown) length. The drop/duplicate
  branch then computes a `step` of zero or NaN, and its inner loop does not end at the first
  image frame. A source without image frames still converts whole. The model adds no
  pass-through fallback: a source must be one on which `convert` ends (`Converter.ConvertsAt`),
  which means `Resamplable` rates or no image frame among the frames grabbed.
- The `command-line` action does not consult `skipOnExistingTarget`.
- The `command-line` action accepts any command that is set, including one of whitespace only.
  Such a command line splits into no argument, and starting it always throws
  (`CommandLine.BlankCommandNeverRuns`).
- `actions` has no default. With it unset, `Application.run` builds the setting, which may create
  the destination, and then throws `NullPointerException` (`App.UnsetActionsThrow`).
- `Application.run` calls a one-argument `SettingImpl` constructor, while `SettingImpl` declares
  `(properties, helpOnly)` and does not store `skipOnExistingTarget`. The two files are modelled
  as written. `App.Run` takes the outcome of building the setting as an input. `Settings` models
  the two-argument constructor and a `SettingImpl` of five fields. The actions read a `Setting`
  of six.

One exception to following the code: the two `NullPointerException` defects listed under
"## Findings". A file directly in the source, with the destination unset, makes the code throw
where the target directory is checked. Each defect is modelled twice: as written
(`Actions.BuildTargetAsWritten`, `CommandLine.ProcessFileAsWritten`) and corrected
(`Actions.BuildTarget`, `CommandLine.ProcessFileStep`). The file-level and run-level members
are built on the corrected steps. "## Left out" names each of them.

## Model

| member | source | states |
|---|---|---|
| Resampling.StepIsRateRatio | src/main/java/ua/od/whcrow/bfpu/cli/actions/FFmpegConverter.java:245-249 | In exact arithmetic `step = (sourceRate * length) / (length * targetRate)` is `sourceRate / targetRate`, for a non-zero length and target rate. |
| Resampling.BelowBound | src/main/java/ua/od/whcrow/bfpu/cli/actions/FFmpegConverter.java:259-263 | A recorded count that still maps to the current grabbed index lies below a bound fixed by that index and `step`, so the inner loop ends. |
| Resampling.RequiredIndexMonotone | src/main/java/ua/od/whcrow/bfpu/cli/actions/FFmpegConverter.java:259 | For `step > 0`, `round(k * step)` is non-negative and does not decrease as `k` grows. |
| Resampling.CopiesRun | src/main/java/ua/od/whcrow/bfpu/cli/actions/FFmpegConverter.java:259-263 | The inner loop records once for each consecutive count that maps to the grabbed index and stops at the first count that does not. |
| Resampling.CopiesEndPast | src/main/java/ua/od/whcrow/bfpu/cli/actions/FFmpegConverter.java:258-264 | If `round(recorded * step) >= grabbedIndex` holds before an image frame, it holds again after the frame: the count after the run maps past the index just passed. |
| Resampling.RunExtendsMapping | src/main/java/ua/od/whcrow/bfpu/cli/actions/FFmpegConverter.java:258-264 | One run of copies keeps "the k-th recorded image is grabbed image `round(k * step)`" true for the new counts. |
| Resampling.AdvanceImage | src/main/java/ua/od/whcrow/bfpu/cli/actions/FFmpegConverter.java:258-264 | Handling an image frame keeps the characterization of the recorder output: image mapping, frames without an image in order, and `round(recorded * step) >= grabbed`. |
| Resampling.AdvanceOther | src/main/java/ua/od/whcrow/bfpu/cli/actions/FFmpegConverter.java:254-257 | Handling a frame without an image keeps the same characterization. |
| Resampling.ResampleCharacterized | src/main/java/ua/od/whcrow/bfpu/cli/actions/FFmpegConverter.java:251-265 | After any grabbed sequence, the counters equal the numbers of images grabbed and recorded. The k-th recorded image is grabbed image `round(k * step)`. Frames without an image are recorded exactly as grabbed, in order. `round(recorded * step) >= grabbed` holds. |
| Resampling.RecordedExactlyTheRequired | src/main/java/ua/od/whcrow/bfpu/cli/actions/FFmpegConverter.java:258-264 | The recorded counts are exactly the `k` with `round(k * step)` below the number of grabbed images. |
| Resampling.ResampleImageFree | src/main/java/ua/od/whcrow/bfpu/cli/actions/FFmpegConverter.java:253-257 | Without image frames the step is never consulted: the output is the grabbed frames, and both counters stay 0. |
| Resampling.ResampleFrameWithoutImage | src/main/java/ua/od/whcrow/bfpu/cli/actions/FFmpegConverter.java:254-257 | A frame without an image is appended once to the output and moves neither `recordedFrameNumber` nor `grabbedFrameIndex`. |
| Resampling.ResampleImage | src/main/java/ua/od/whcrow/bfpu/cli/actions/FFmpegConverter.java:258-264 | An image frame is appended consecutively, once for each count `k` with `round(k * step)` equal to its grabbed index and for no other; the grabbed index then grows by one. |
| Resampling.CopiesAtMostOne | src/main/java/ua/od/whcrow/bfpu/cli/actions/FFmpegConverter.java:259-263 | With `step >= 1` a run has at most one count. |
| Resampling.CopiesAtLeastOne | src/main/java/ua/od/whcrow/bfpu/cli/actions/FFmpegConverter.java:259-263 | With `0 < step <= 1` a run that starts at or past its index is not empty. |
| Resampling.DroppingRecordsAtMostOnce | src/main/java/ua/od/whcrow/bfpu/cli/actions/FFmpegConverter.java:245-264 | With `step >= 1` (target rate no higher than the source rate) no image frame is recorded twice. |
| Resampling.DuplicatingRecordsAtLeastOnce | src/main/java/ua/od/whcrow/bfpu/cli/actions/FFmpegConverter.java:245-264 | With `0 < step <= 1` (target rate no lower than the source rate) every image frame is recorded. |
| Resampling.ResampleAtUnitStep | src/main/java/ua/od/whcrow/bfpu/cli/actions/FFmpegConverter.java:251-265 | At `step == 1` the output is exactly the grabbed frames. |
| Media.FrameGrabber.constructor | src/main/java/ua/od/whcrow/bfpu/cli/actions/FFmpegConverter.java:138 | A grabber opened on a file starts before its first frame. It delivers the frames before the point where the stream breaks, or all of them. |
| Media.FrameGrabber.Grab | src/main/java/ua/od/whcrow/bfpu/cli/actions/FFmpegConverter.java:253 | `grab()` returns the next frame and advances by one while frames remain to deliver. After that it does not move: it throws `FrameGrabber.Exception` if the stream broke, else it returns null. |
| Media.FrameRecorder.constructor | src/main/java/ua/od/whcrow/bfpu/cli/actions/FFmpegConverter.java:139 | `new FFmpegFrameRecorder(file, 0)` has no image size and no audio channels, nothing recorded, and library defaults elsewhere. |
| Media.FrameRecorder.Record | src/main/java/ua/od/whcrow/bfpu/cli/actions/FFmpegConverter.java:255 | `record(frame)` appends the frame and leaves the settings unchanged. |
| Converter.CodecMapKeys | src/main/java/ua/od/whcrow/bfpu/cli/actions/FFmpegConverter.java:41-50 | A key is in `CODEC_MAP` exactly when a static `int` field named `AV_CODEC_ID_` plus that key exists. |
| Converter.CodecMapValue | src/main/java/ua/od/whcrow/bfpu/cli/actions/FFmpegConverter.java:41-50 | With distinct field names, each such field's stripped name maps to the field's value. |
| Converter.GetCodecId | src/main/java/ua/od/whcrow/bfpu/cli/actions/FFmpegConverter.java:94-110 | No encoder and no codec give null. An encoder name is looked up by name. A codec name goes through the upper-cased `CODEC_MAP` key and then the lookup by id. Failure happens exactly when a lookup misses. It is an `ActionRunException` with no cause, saying "is not registered" for an unknown codec key and "is not found" otherwise. |
| Converter.EncoderTakesPrecedence | src/main/java/ua/od/whcrow/bfpu/cli/actions/FFmpegConverter.java:99-101 | With an encoder name the codec name does not affect the result. |
| Converter.CodecNameCaseInsensitive | src/main/java/ua/od/whcrow/bfpu/cli/actions/FFmpegConverter.java:112-119 | Codec names that upper-case alike resolve alike. |
| Converter.CodecResolution | src/main/java/ua/od/whcrow/bfpu/cli/actions/FFmpegConverter.java:112-119 | A codec name is registered exactly when a codec field carries the prefix plus its upper-cased form. It resolves to that field's value; otherwise it fails with the "not registered" `ActionRunException`. |
| Converter.FrameRateWithinBounds | src/main/java/ua/od/whcrow/bfpu/cli/actions/FFmpegConverter.java:181-192 | Without an explicit rate, the source rate is kept exactly when it is within the configured bounds. Otherwise the violated bound replaces it, so consistent bounds always hold. |
| Converter.ExplicitFrameRateWins | src/main/java/ua/od/whcrow/bfpu/cli/actions/FFmpegConverter.java:190-191 | An explicit frame rate is used whatever the bounds and the source say. |
| Converter.SampleRateFollowsFrameRateRule | src/main/java/ua/od/whcrow/bfpu/cli/actions/FFmpegConverter.java:214-224 | The sample rate is chosen by the same rule as the frame rate. |
| Converter.Populate | src/main/java/ua/od/whcrow/bfpu/cli/actions/FFmpegConverter.java:149-228 | Each recorder setting becomes the configured value, else the source's, else stays as it was, setting by setting. The audio channels are always copied. Every other audio setting stays untouched when the source has no audio channels. Nothing is recorded. |
| Converter.PopulateContainer | src/main/java/ua/od/whcrow/bfpu/cli/actions/FFmpegConverter.java:151-165 | The image size, audio channels, aspect ratio, metadata, format and options, as `populate` writes them first. |
| Converter.PopulateVideo | src/main/java/ua/od/whcrow/bfpu/cli/actions/FFmpegConverter.java:166-180 | The video codec, encoder name, options, bitrate and quality. |
| Converter.PopulateVideoStream | src/main/java/ua/od/whcrow/bfpu/cli/actions/FFmpegConverter.java:181-197 | The chosen frame rate, the display rotation and the video metadata. |
| Converter.PopulateAudio | src/main/java/ua/od/whcrow/bfpu/cli/actions/FFmpegConverter.java:201-227 | The audio settings for a source with audio channels, including the chosen sample rate. |
| Converter.ResampleStep | src/main/java/ua/od/whcrow/bfpu/cli/actions/FFmpegConverter.java:232-249 | For a positive source rate, a nonzero length of either sign and a positive target rate, the computed `step` is positive and equals `sourceRate / targetRate`. |
| Converter.RecordAllFrames | src/main/java/ua/od/whcrow/bfpu/cli/actions/FFmpegConverter.java:269-275 | Every remaining delivered frame is recorded once, in order. The grabber ends past them, and the exception of a broken stream is passed on. |
| Converter.RecordImage | src/main/java/ua/od/whcrow/bfpu/cli/actions/FFmpegConverter.java:258-263 | The inner loop appends the image frame `Copies` times and returns the advanced `recordedFrameNumber`. |
| Converter.RecordFrame | src/main/java/ua/od/whcrow/bfpu/cli/actions/FFmpegConverter.java:254-264 | One pass of the outer loop records a frame without an image once and leaves both counters. For a positive `step` it performs exactly one `Advance` step of the resampler on the recorder and on both counters. |
| Converter.RecordResampled | src/main/java/ua/od/whcrow/bfpu/cli/actions/FFmpegConverter.java:251-265 | The outer loop records `Resample` of the delivered frames for a positive `step`. It records them unchanged for a step that is not positive, which is reachable only without image frames. It ends past the delivered frames and passes on the exception of a broken stream. |
| Converter.Convert | src/main/java/ua/od/whcrow/bfpu/cli/actions/FFmpegConverter.java:230-267 | The recorder receives exactly `ConvertedFrames` of the delivered frames, and the exception of a broken stream is passed on. That is every frame unchanged when the whole parts of the two rates are equal. Otherwise it is the resampled output that `Resampling.ResampleCharacterized` characterizes. |
| Converter.ConvertedWithoutImages | src/main/java/ua/od/whcrow/bfpu/cli/actions/FFmpegConverter.java:253-257 | Frames without images come out of `convert` unchanged whatever the two rates, because `step` is only read for an image frame. |
| Converter.Process | src/main/java/ua/od/whcrow/bfpu/cli/actions/FFmpegConverter.java:132-147 | Converting one file creates at most the target file, and only if the target is not a directory. A successful conversion has created it. A stream that breaks after the target was created throws `FrameGrabber.Exception` and leaves the target. |
| Converter.ProcessFile | src/main/java/ua/od/whcrow/bfpu/cli/actions/FFmpegConverter.java:132-147 | On the file system, `processFile` does what `Process` says and leaves the directories unchanged. |
| Converter.BuildConverterTarget | src/main/java/ua/od/whcrow/bfpu/cli/actions/FFmpegConverter.java:123-130 | The overridden `buildTargetFilePath` keeps the directory set prefix-closed and apart from regular files. |
| Converter.BuildTargetFilePath | src/main/java/ua/od/whcrow/bfpu/cli/actions/FFmpegConverter.java:123-130 | On the file system, the override does what `BuildConverterTarget` says. |
| Converter.ConvertFile | src/main/java/ua/od/whcrow/bfpu/cli/actions/FFmpegConverter.java:72-89 | One iteration of the loop of `run` keeps the file-system invariant. |
| Converter.ConvertAll | src/main/java/ua/od/whcrow/bfpu/cli/actions/FFmpegConverter.java:71-90 | The loop over the enumerated files keeps the file-system invariant. |
| Converter.ConvertSourceFile | src/main/java/ua/od/whcrow/bfpu/cli/actions/FFmpegConverter.java:72-89 | On the file system, one iteration does what `ConvertFile` says. |
| Converter.ConvertPaths | src/main/java/ua/od/whcrow/bfpu/cli/actions/FFmpegConverter.java:71-90 | On the file system, the loop does what `ConvertAll` says. |
| Converter.Run | src/main/java/ua/od/whcrow/bfpu/cli/actions/FFmpegConverter.java:65-91 | On the file system, `run` does what `RunSpec` says. It resolves both codecs, opens the enumeration, converts the files in order, and reports an unreadable directory met by the walk. |
| Converter.ConverterTargetLocation | src/main/java/ua/od/whcrow/bfpu/cli/actions/FFmpegConverter.java:123-130 | Without `fileExt` the target mirrors the source. With a plain extension the target stays in the same directory, with the same base name, and carries that extension. The directories created are those of the inherited method. |
| Converter.ConvertFileOutcome | src/main/java/ua/od/whcrow/bfpu/cli/actions/FFmpegConverter.java:73-88 | A target-path failure ends the run even when fail-tolerant. A conversion failure ends it exactly when not fail-tolerant, with an `ActionRunException` naming the source and wrapping the grabber or recorder exception. Otherwise exactly one outcome is logged for the file. |
| Converter.SkipAndConvert | src/main/java/ua/od/whcrow/bfpu/cli/actions/FFmpegConverter.java:74-80 | An existing target is skipped exactly when `skipOnExistingTarget` is set, and skipping writes nothing. A converted file exists afterwards and received the converted frames, from a stream that did not break. |
| Converter.BrokenTargetSkippedLater | src/main/java/ua/od/whcrow/bfpu/cli/actions/FFmpegConverter.java:72-89 | A stream that breaks mid-conversion leaves its new target on disk. Under `failTolerant` the file is logged as failed, and a later pass over it with `skipOnExistingTarget` skips it instead of converting it again. |
| Converter.FilesProcessedInOrder | src/main/java/ua/od/whcrow/bfpu/cli/actions/FFmpegConverter.java:71-90 | The logged files are a prefix of the enumeration: all of it unless an iteration threw. The iteration that threw is the one for the first file not logged, and nothing happens after it. |
| Converter.LogStep | src/main/java/ua/od/whcrow/bfpu/cli/actions/FFmpegConverter.java:73-88 | An iteration that does not throw logs one outcome, for its own file. One that throws logs none. |
| Converter.CodecFailureTouchesNothing | src/main/java/ua/od/whcrow/bfpu/cli/actions/FFmpegConverter.java:69-71 | An unresolvable codec ends `run` with an `ActionRunException` before any file is enumerated or touched. |
| Converter.FailTolerantRunStops | src/main/java/ua/od/whcrow/bfpu/cli/actions/FFmpegConverter.java:71-90 | Under `failTolerant`, a run that got past the codecs ends early only in these cases: the enumeration cannot start (the wrapped exception); an unreadable directory is met (after every earlier file); or a target directory cannot be created (after the files before it). With the corrected target step: for a file directly in the source under an unset destination the code as written throws `NullPointerException` (see "## Findings"). |
| Actions.CreatePathStream | src/main/java/ua/od/whcrow/bfpu/cli/actions/AbstractAction.java:26-40 | The enumeration fails exactly when the source directory cannot be opened. It then raises the `ActionRunException` "Failed to find the files matching given setting", wrapping the `IOException`. |
| Actions.PathStreamSound | src/main/java/ua/od/whcrow/bfpu/cli/actions/AbstractAction.java:28-36 | Every enumerated path lies under the source within the depth bound (1, or `Integer.MAX_VALUE` when recursive). It leads to a regular file whose name the glob accepts (any name for a blank glob). |
| Actions.PathStreamComplete | src/main/java/ua/od/whcrow/bfpu/cli/actions/AbstractAction.java:28-36 | Where every directory in reach is readable, every accepted regular file within the depth bound is enumerated. |
| Actions.NonRecursiveYieldsChildren | src/main/java/ua/od/whcrow/bfpu/cli/actions/AbstractAction.java:34-36 | A non-recursive enumeration yields only direct children of the source. |
| Actions.StreamPathsBeneath | src/main/java/ua/od/whcrow/bfpu/cli/actions/AbstractAction.java:26-40 | Every enumerated path is strictly under the source, as `buildTargetFilePath` needs. |
| Actions.TargetFile | src/main/java/ua/od/whcrow/bfpu/cli/actions/AbstractAction.java:46-47 | The target is the destination followed by the source file's segments after the source directory, and it keeps the file's name. |
| Actions.BuildTargetFilePath | src/main/java/ua/od/whcrow/bfpu/cli/actions/AbstractAction.java:43-58 | On the file system, `buildTargetFilePath` does what `BuildTarget` says. |
| Actions.BuildTargetFilePathFor | src/main/java/ua/od/whcrow/bfpu/cli/actions/AbstractAction.java:61-64 | The two-argument overload delegates with the setting's source and destination. |
| Actions.TargetMirrorsSource | src/main/java/ua/od/whcrow/bfpu/cli/actions/AbstractAction.java:46-47 | The target is absolute exactly when the destination is. Relativizing the target against the destination gives back the source file relativized against the source. |
| Actions.BuildTargetEffect | src/main/java/ua/od/whcrow/bfpu/cli/actions/AbstractAction.java:48-57 | Only missing ancestors of the target directory are created. Nothing is created when that directory exists. After success the directory and all its ancestors exist, and the result is the mirrored target. |
| Actions.BuildTargetFails | src/main/java/ua/od/whcrow/bfpu/cli/actions/AbstractAction.java:49-55 | Failure happens exactly when the target directory is missing and one of its missing ancestors is a regular file or cannot be created. The `ActionRunException` then names the directory and the source file. |
| Actions.TopLevelFileWithoutDestination | src/main/java/ua/od/whcrow/bfpu/cli/actions/AbstractAction.java:48-49 | With the empty destination, a file directly in the source makes the code as written throw `NullPointerException`. The corrected method returns the bare name. |
| Actions.WithExtensionKeeps | src/main/java/ua/od/whcrow/bfpu/cli/actions/AbstractAction.java:69-71 | A name whose extension is exactly the requested one is returned unchanged. |
| Actions.WithExtensionRenames | src/main/java/ua/od/whcrow/bfpu/cli/actions/AbstractAction.java:72-73 | Otherwise only the last segment changes. It becomes the name without its extension, a dot, and the requested extension. |
| Actions.WithExtensionSetsExtension | src/main/java/ua/od/whcrow/bfpu/cli/actions/AbstractAction.java:67-74 | For a plain extension the result stays in the same directory, keeps the base name, and has the requested extension (when that is not empty). |
| Actions.WithExtensionIdempotent | src/main/java/ua/od/whcrow/bfpu/cli/actions/AbstractAction.java:67-74 | For an extension without a dot or separator, rewriting twice is rewriting once. |
| FileNames.IndexOfLastSeparator | src/main/java/ua/od/whcrow/bfpu/cli/actions/AbstractAction.java:69-72 | Commons IO `indexOfLastSeparator`: the last `/` or `\`, or -1. |
| FileNames.IndexOfExtension | src/main/java/ua/od/whcrow/bfpu/cli/actions/AbstractAction.java:69-72 | Commons IO `indexOfExtension`: the last dot after the last separator, or -1 when the name has none. |
| FileNames.SplitExtension | src/main/java/ua/od/whcrow/bfpu/cli/actions/AbstractAction.java:72 | `removeExtension(name) + "." + getExtension(name)` is the name when it has an extension. Otherwise the name has no extension and `removeExtension` leaves it unchanged. |
| FileNames.AppendExtension | src/main/java/ua/od/whcrow/bfpu/cli/actions/AbstractAction.java:72-73 | Appending `.` and a plain extension to any base makes that the extension and leaves the base as what `removeExtension` returns. |
| Paths.JavaParent | src/main/java/ua/od/whcrow/bfpu/cli/actions/AbstractAction.java:48 | `getParent()` is null exactly for a one-segment path. Otherwise it is the path without its last segment. |
| Paths.ContainingDir | src/main/java/ua/od/whcrow/bfpu/cli/actions/AbstractAction.java:48-51 | The directory a file is created in: the parent, or the working directory for a bare name. |
| Paths.ResolveSibling | src/main/java/ua/od/whcrow/bfpu/cli/actions/AbstractAction.java:73 | `resolveSibling(name)` replaces the last segment and keeps the rest. |
| Paths.RelativizeUnderBase | src/main/java/ua/od/whcrow/bfpu/cli/actions/AbstractAction.java:46 | A path under its base relativizes to its segments after the base. |
| Paths.MirrorRoundTrip | src/main/java/ua/od/whcrow/bfpu/cli/actions/AbstractAction.java:46-47 | Relativizing `destination.resolve(source.relativize(file))` against the destination gives back the file's path relative to the source. |
| Paths.Absolute | src/main/java/ua/od/whcrow/bfpu/cli/actions/CommandLineAction.java:121-122 | `toAbsolutePath` gives an absolute path. |
| Paths.ParsePath | src/main/java/ua/od/whcrow/bfpu/cli/SettingImpl.java:32 | `Path.of(text)` is a valid path, and absolute exactly when the text starts with `/`. |
| Paths.ParseToString | src/main/java/ua/od/whcrow/bfpu/cli/SettingImpl.java:32 | `Path.of(p.toString())` is `p`. |
| Paths.AbsoluteTextHasSlash | src/main/java/ua/od/whcrow/bfpu/cli/actions/CommandLineAction.java:121-122 | The text of an absolute path starts with `/`. |
| FileTree.VisitSound | src/main/java/ua/od/whcrow/bfpu/cli/actions/AbstractAction.java:34-36 | The walk yields only accepted regular files within the depth bound, each under its start. |
| FileTree.ReadableWalkSucceeds | src/main/java/ua/od/whcrow/bfpu/cli/actions/AbstractAction.java:34-36 | Where every directory it opens is readable, the walk does not fail. |
| FileTree.VisitComplete | src/main/java/ua/od/whcrow/bfpu/cli/actions/AbstractAction.java:34-36 | Where every directory it opens is readable, the walk yields every accepted regular file within the bound. |
| FileTree.DepthOneYieldsChildren | src/main/java/ua/od/whcrow/bfpu/cli/actions/AbstractAction.java:36 | With depth 1 the walk yields only the start directory's direct children. |
| FileSystems.MkDirs | src/main/java/ua/od/whcrow/bfpu/cli/actions/AbstractAction.java:51 | `Files.createDirectories` only adds directories. |
| FileSystems.MkDirsEffect | src/main/java/ua/od/whcrow/bfpu/cli/actions/AbstractAction.java:50-51 | It adds nothing but missing ancestors of the path, all of them on success. The directory set stays prefix-closed and apart from regular files. |
| FileSystems.MkDirsSucceeds | src/main/java/ua/od/whcrow/bfpu/cli/actions/AbstractAction.java:50-55 | It succeeds exactly when no missing ancestor is a regular file or unwritable. |
| FileSystems.FileSystem.CreateDirectories | src/main/java/ua/od/whcrow/bfpu/cli/actions/AbstractAction.java:51 | On the file system, `createDirectories` does what `MkDirs` says. |
| FileSystems.FileSystem.CreateDirectory | src/main/java/ua/od/whcrow/bfpu/cli/SettingImpl.java:42 | `Files.createDirectory` succeeds exactly when the path is missing, its parent is a directory and it is writable. It then adds that one directory. |
| FileSystems.FileSystem.CreateFile | src/main/java/ua/od/whcrow/bfpu/cli/actions/FFmpegConverter.java:139-143 | Opening the recorder's output creates the target file exactly when it is not a directory, its directory exists and it is writable. |
| CommandLine.NewCommandLineAction | src/main/java/ua/od/whcrow/bfpu/cli/actions/CommandLineAction.java:50-60 | Construction fails exactly when the command is null. It then raises an `ActionPropertyException` (an `ActionInitException`) for action `command-line` and property `command-line.command`, "not specified". Otherwise the three values are stored. |
| CommandLine.NoPlaceholderRemains | src/main/java/ua/od/whcrow/bfpu/cli/actions/CommandLineAction.java:120-122 | When neither absolute path contains `%`, no `%source%` or `%target%` is left in the command line. |
| CommandLine.TemplateWithoutPlaceholders | src/main/java/ua/od/whcrow/bfpu/cli/actions/CommandLineAction.java:120-122 | A template without placeholders is the command line unchanged. |
| CommandLine.Arguments | src/main/java/ua/od/whcrow/bfpu/cli/actions/CommandLineAction.java:125 | No token contains whitespace. Every token after the first is non-empty. The tokens joined are the command line with its whitespace removed. |
| CommandLine.ExitFailureNamesCode | src/main/java/ua/od/whcrow/bfpu/cli/actions/CommandLineAction.java:134 | A refused exit code gives an `ActionException` without cause. Its message names the file, and the exit code can be parsed back from its end. |
| CommandLine.ExitFailuresDistinct | src/main/java/ua/od/whcrow/bfpu/cli/actions/CommandLineAction.java:134 | Different exit codes give different messages. |
| CommandLine.OutputEvents | src/main/java/ua/od/whcrow/bfpu/cli/actions/CommandLineAction.java:137-154 | At OFF nothing is read or logged. Otherwise each output line, in order, is logged through the method of the configured level. |
| CommandLine.HandleOutput | src/main/java/ua/od/whcrow/bfpu/cli/actions/CommandLineAction.java:137-154 | The read-line loop produces exactly `OutputEvents`. |
| CommandLine.OutputLevels | src/main/java/ua/od/whcrow/bfpu/cli/actions/CommandLineAction.java:145-151 | Two levels log the same events exactly when they are equal or are ERROR and FATAL. |
| CommandLine.ExitRule | src/main/java/ua/od/whcrow/bfpu/cli/actions/CommandLineAction.java:117-135 | The arguments are the split command line built from the absolute paths. The output is logged. The command succeeds exactly when the process exits with 0, or with any code when exit codes are ignored. A process exception passes through unchanged. A refused code gives the `ActionException` naming the file and the code. An empty argument list starts nothing: it fails with the unchecked `ArrayIndexOutOfBoundsException` of `ProcessBuilder.start`, and no output is logged. |
| CommandLine.ExecCommand | src/main/java/ua/od/whcrow/bfpu/cli/actions/CommandLineAction.java:117-135 | `execCommand` returns exactly `ExecResult`. |
| CommandLine.BlankTemplateHasNoArguments | src/main/java/ua/od/whcrow/bfpu/cli/actions/CommandLineAction.java:120-125 | A command of `\s` only, such as `" "`, passes construction, has no placeholder, and splits into no argument. |
| CommandLine.BlankCommandNeverRuns | src/main/java/ua/od/whcrow/bfpu/cli/actions/CommandLineAction.java:105-114 | With a command of `\s` only, no file is ever run and no output is logged. Once the target directory exists, a fail-tolerant setting skips the file with the `ArrayIndexOutOfBoundsException` as the cause. Any other setting ends the run with that exception wrapped. |
| CommandLine.EnsureDir | src/main/java/ua/od/whcrow/bfpu/cli/actions/CommandLineAction.java:93-96 | `if (notExists(dir)) createDirectories(dir)` only adds directories. |
| CommandLine.EnsureDirEffect | src/main/java/ua/od/whcrow/bfpu/cli/actions/CommandLineAction.java:93-96 | Only missing ancestors are created, and nothing for an existing path. On success the directory exists. |
| CommandLine.ProcessFileStep | src/main/java/ua/od/whcrow/bfpu/cli/actions/CommandLineAction.java:89-115 | One `processFile` only adds directories. |
| CommandLine.EnsureTargetDir | src/main/java/ua/od/whcrow/bfpu/cli/actions/CommandLineAction.java:93-104 | On the file system, the directory step does what `EnsureDir` says. |
| CommandLine.ProcessFile | src/main/java/ua/od/whcrow/bfpu/cli/actions/CommandLineAction.java:89-115 | On the file system, `processFile` does what `ProcessFileStep` says. |
| CommandLine.ProcessAll | src/main/java/ua/od/whcrow/bfpu/cli/actions/CommandLineAction.java:72 | The `forEach` only adds directories. |
| CommandLine.ProcessPaths | src/main/java/ua/od/whcrow/bfpu/cli/actions/CommandLineAction.java:71-73 | On the file system, the `forEach` does what `ProcessAll` says. |
| CommandLine.Run | src/main/java/ua/od/whcrow/bfpu/cli/actions/CommandLineAction.java:69-74 | On the file system, `run` does what `RunSpec` says. |
| CommandLine.ProcessFileOutcome | src/main/java/ua/od/whcrow/bfpu/cli/actions/CommandLineAction.java:93-114 | A directory or command failure ends the run exactly when not fail-tolerant. It then raises an `ActionRuntimeException` naming the action and the file and wrapping the cause. Otherwise exactly one outcome is logged, and it is `Ran` exactly when the command succeeded. The output is logged whenever the command ran. |
| CommandLine.ProcessFileDirectories | src/main/java/ua/od/whcrow/bfpu/cli/actions/CommandLineAction.java:91-96 | The target mirrors the source under the destination. Only missing ancestors of its directory are created, and nothing when that path exists. A command runs only after its directory exists. |
| CommandLine.LogStep | src/main/java/ua/od/whcrow/bfpu/cli/actions/CommandLineAction.java:97-114 | An iteration that does not throw logs one outcome for its file. One that throws logs none. Fail-tolerant iterations never throw. With the corrected target step: for a file directly in the source under an unset destination the code as written throws `NullPointerException` (see "## Findings"). |
| CommandLine.FilesProcessedInOrder | src/main/java/ua/od/whcrow/bfpu/cli/actions/CommandLineAction.java:71-73 | Files are processed in enumeration order. The first exception stops the run, and no later file is looked at. |
| CommandLine.FailTolerantProcessesAll | src/main/java/ua/od/whcrow/bfpu/cli/actions/CommandLineAction.java:89-115 | Under `failTolerant` every enumerated file gets an outcome, in order. With the corrected target step: for a file directly in the source under an unset destination the code as written throws `NullPointerException` (see "## Findings"). |
| CommandLine.RunStartFails | src/main/java/ua/od/whcrow/bfpu/cli/actions/CommandLineAction.java:76-87 | A source directory that cannot be opened ends the run with its `IOException`, unwrapped, and nothing else happens. |
| CommandLine.RunFailTolerant | src/main/java/ua/od/whcrow/bfpu/cli/actions/CommandLineAction.java:69-74 | A fail-tolerant run over a readable source handles every enumerated file in order. It fails only with the walk's own failure. With the corrected target step: for a file directly in the source under an unset destination the code as written throws `NullPointerException` (see "## Findings"). |
| CommandLine.TopLevelFileWithoutDestination | src/main/java/ua/od/whcrow/bfpu/cli/actions/CommandLineAction.java:91-93 | With the empty destination, a file directly in the source makes the code as written throw `NullPointerException`. The corrected step creates nothing and can fail only in the command. |
| JavaText.ReplaceLeavesNoPlaceholder | src/main/java/ua/od/whcrow/bfpu/cli/actions/CommandLineAction.java:120-122 | After `replace(pat, rep)`, neither `pat` nor another placeholder absent before is present, when `rep` has no `%` and has a character the placeholder lacks. |
| JavaText.ReplaceWithoutOccurrence | src/main/java/ua/od/whcrow/bfpu/cli/actions/CommandLineAction.java:120-122 | `replace` of a pattern that does not occur changes nothing. |
| JavaText.SplitTokensHaveNoSpace | src/main/java/ua/od/whcrow/bfpu/cli/actions/CommandLineAction.java:125 | No token of `split("\\s+")` contains whitespace. |
| JavaText.SplitTokensNonEmpty | src/main/java/ua/od/whcrow/bfpu/cli/actions/CommandLineAction.java:125 | Every token of `split("\\s+")` after the first is non-empty. |
| JavaText.SplitKeepsText | src/main/java/ua/od/whcrow/bfpu/cli/actions/CommandLineAction.java:125 | The tokens joined are exactly the non-whitespace characters, in order. |
| JavaText.SplitEmptyExactlyWhenAllSpace | src/main/java/ua/od/whcrow/bfpu/cli/actions/CommandLineAction.java:125 | `split("\\s+")` yields no token exactly when the input is non-empty and all `\s`. |
| JavaText.ToUpper | src/main/java/ua/od/whcrow/bfpu/cli/actions/FFmpegConverter.java:114 | `toUpperCase` on ASCII: keeps the length and maps each character, lower-case ASCII letters to upper case and every other character to itself. |
| JavaText.IntToStringRoundTrip | src/main/java/ua/od/whcrow/bfpu/cli/actions/CommandLineAction.java:134 | Parsing the decimal text of an exit code gives it back. |
| JavaText.IntToStringInjective | src/main/java/ua/od/whcrow/bfpu/cli/actions/CommandLineAction.java:134 | Distinct exit codes have distinct texts. |
| Logging.Call | src/main/java/ua/od/whcrow/bfpu/cli/actions/FFmpegConverterOutputLogCallback.java:49-58 | PANIC, FATAL and ERROR go to `error`. WARNING goes to `warn`, INFO to `info`, and VERBOSE and DEBUG to `debug`. Every other level goes to `trace`. The text is unchanged. |
| Logging.FFmpegLevelAntitone | src/main/java/ua/od/whcrow/bfpu/cli/actions/FFmpegConverterOutputLogCallback.java:34-45 | A more verbose Spring level is mapped to a strictly larger FFmpeg level. |
| Logging.FFmpegLevelInjective | src/main/java/ua/od/whcrow/bfpu/cli/actions/FFmpegConverterOutputLogCallback.java:36-44 | Distinct Spring levels are mapped to distinct FFmpeg levels. |
| Logging.NoLevelInstallsDebug | src/main/java/ua/od/whcrow/bfpu/cli/actions/FFmpegConverterOutputLogCallback.java:36-44 | No level installs FFmpeg's DEBUG or PANIC; DEBUG is mapped to VERBOSE. |
| Logging.SetThenCall | src/main/java/ua/od/whcrow/bfpu/cli/actions/FFmpegConverterOutputLogCallback.java:34-58 | For each level other than OFF, FFmpeg output at the installed level reaches the SLF4J method of that level (FATAL via `error`) with its text unchanged. |
| Condition.GetMatchOutcome | src/main/java/ua/od/whcrow/bfpu/cli/_commons/OnArrayPropertyContainsValueCondition.java:21-47 | The outcome matches exactly when the annotation and both attributes are present and the bound list (empty when unbound) contains the value. Each guard gives its own message. A completed test says `Property "name" value contains "value"`, or `doesn't contain` when it does not match. |
| Condition.NameCheckedFirst | src/main/java/ua/od/whcrow/bfpu/cli/_commons/OnArrayPropertyContainsValueCondition.java:30-37 | A missing `name` is reported even when `containsValue` is missing too. |
| Condition.OnlyTheNamedPropertyMatters | src/main/java/ua/od/whcrow/bfpu/cli/_commons/OnArrayPropertyContainsValueCondition.java:38-46 | The outcome depends only on the list bound to the named property. |
| Exceptions.Super | src/main/java/ua/od/whcrow/bfpu/cli/exceptions/ActionPropertyException.java:5 | Every class except `Exception` has a direct superclass one level above it. |
| Exceptions.EveryKindIsAnException | src/main/java/ua/od/whcrow/bfpu/cli/exceptions/ActionRuntimeException.java:5 | Every modelled exception class is an `Exception`. |
| Exceptions.ParseActionMessage | src/main/java/ua/od/whcrow/bfpu/cli/exceptions/ActionException.java:15-18 | Whatever it reads back rebuilds the message it read from. |
| Exceptions.ActionMessageRoundTrip | src/main/java/ua/od/whcrow/bfpu/cli/exceptions/ActionException.java:15-18 | For a name without `"`, the name and the error are recovered from `Action "name": error`. |
| Exceptions.ActionMessageInjective | src/main/java/ua/od/whcrow/bfpu/cli/exceptions/ActionException.java:15-18 | For names without `"`, distinct (name, error) pairs give distinct messages. |
| Exceptions.ActionFailure | src/main/java/ua/od/whcrow/bfpu/cli/exceptions/ActionException.java:7-13 | An action exception keeps its class and the cause it was given. |
| Exceptions.ConstructorsAgree | src/main/java/ua/od/whcrow/bfpu/cli/exceptions/ActionException.java:7-13 | With and without a cause, the constructors of `ActionException`, `ActionRuntimeException` and `ActionNotFoundException` give the same class and message. Only the variant with a cause keeps one. |
| Exceptions.SharedMessageFormat | src/main/java/ua/od/whcrow/bfpu/cli/exceptions/ActionRuntimeException.java:15-18 | `ActionException`, `ActionRunException` and `ActionRuntimeException` format alike, and the name and error are recoverable from each. |
| Exceptions.PropertyMessageFormat | src/main/java/ua/od/whcrow/bfpu/cli/exceptions/ActionPropertyException.java:7-19 | The message is exactly `Action "a": property/argument "p": e`, with or without a cause. |
| Exceptions.NotFoundMessage | src/main/java/ua/od/whcrow/bfpu/cli/exceptions/ActionNotFoundException.java:9-23 | Without an error argument the message is `Action "name": not found`. An explicit error replaces the default. |
| Exceptions.ActionHierarchy | src/main/java/ua/od/whcrow/bfpu/cli/exceptions/ActionPropertyException.java:5 | `ActionPropertyException` is an `ActionInitException` and so an `ActionException`. `ActionNotFoundException` and `ActionRunException` are `ActionException`s. |
| Exceptions.CheckedAndUnchecked | src/main/java/ua/od/whcrow/bfpu/cli/exceptions/ActionRuntimeException.java:5 | `ActionRuntimeException` is unchecked and not an `ActionException`. The action exceptions are checked. |
| Settings.NewSettingImpl | src/main/java/ua/od/whcrow/bfpu/cli/SettingImpl.java:24-47 | On the file system, the constructor does what `Construct` says. |
| Settings.BlankSourceRejected | src/main/java/ua/od/whcrow/bfpu/cli/SettingImpl.java:26-29 | A blank source outside help mode raises `SettingException` "Source cannot be blank" whatever the file system holds, and nothing is created. |
| Settings.HelpOnlyBlankSourceIsWorkingDirectory | src/main/java/ua/od/whcrow/bfpu/cli/SettingImpl.java:30-33 | In help mode a blank source is the empty path (the working directory). Only creating the destination can then fail. |
| Settings.MissingSourceReported | src/main/java/ua/od/whcrow/bfpu/cli/SettingImpl.java:34-36 | A missing source raises `PathNotFoundException` with its absolute text, ahead of the directory check, and nothing is created. |
| Settings.FileSourceReported | src/main/java/ua/od/whcrow/bfpu/cli/SettingImpl.java:37-39 | A source that is a regular file raises `PathException` "source isn't a directory". |
| Settings.ConstructSucceeds | src/main/java/ua/od/whcrow/bfpu/cli/SettingImpl.java:24-47 | Construction succeeds exactly when the source passes its checks and the destination exists or can be created as one directory. |
| Settings.ConstructEffect | src/main/java/ua/od/whcrow/bfpu/cli/SettingImpl.java:40-75 | After success the getters return the source, the destination and the copied flags. The destination exists, and at most that one directory was created. A failed construction creates nothing. |
| Settings.NullDestinationIsWorkingDirectory | src/main/java/ua/od/whcrow/bfpu/cli/SettingImpl.java:40-43 | A null destination is the empty path, which is never created. |
| App.Lookup | src/main/java/ua/od/whcrow/bfpu/cli/Application.java:40-42 | The first registered action with the requested name, or none exactly when no action has that name. |
| App.Run | src/main/java/ua/od/whcrow/bfpu/cli/Application.java:33-49 | The loop over the requested names does what `RunSpec` says. A failed construction escapes first. With `actions` unset (null), the `for` throws `NullPointerException`. Otherwise the names are looked up and run in order. |
| App.RunFromCharacterized | src/main/java/ua/od/whcrow/bfpu/cli/Application.java:38-48 | Names are run in order. The completed actions are those the first names resolve to. The loop ends without an exception exactly when all names completed. Otherwise the exception is what the next name raised. |
| App.RunCompletesAll | src/main/java/ua/od/whcrow/bfpu/cli/Application.java:38-48 | Without failures every requested name runs once, in order, repeats included, and the setting was built and names were given. |
| App.RunStopsAtFailure | src/main/java/ua/od/whcrow/bfpu/cli/Application.java:43-48 | At a failure at position `k`, exactly the actions of the earlier names completed. The exception is `ActionNotFoundException` for an unknown name, else what its run raised, unwrapped. |
| App.UnknownNameStops | src/main/java/ua/od/whcrow/bfpu/cli/Application.java:43 | An unknown name raises `ActionNotFoundException` `Action "name": not found`, and nothing runs for it or later names. |
| App.ConstructionFailureRunsNothing | src/main/java/ua/od/whcrow/bfpu/cli/Application.java:36 | A setting that cannot be built fails the run before any action runs, whether or not names were given. |
| App.UnsetActionsThrow | src/main/java/ua/od/whcrow/bfpu/cli/Application.java:36-38 | With `actions` unset, a built setting is followed by an unchecked `NullPointerException` and no action. |
| App.RepeatedNameRunsTwice | src/main/java/ua/od/whcrow/bfpu/cli/Application.java:38-48 | A name requested twice runs its action twice. |
## Left out

- JavaCV and FFmpeg native code is not modelled. This covers the grabber and recorder internals, `start`, codec lookups (`avcodec_find_encoder*`), `av_log_set_level` and `setLogCallback`. A source is a given sequence of frames with its metadata (`Media.Source`). Whether it opens is a given function of its path. The encoder lookups are given functions (`Converter.Encoders`). The recorder's library defaults are a given record.
- The global native log level that `FFmpegConverterOutputLogCallback.set` installs is not kept as state. Only the level mapping (`Logging.FFmpegLevel`) is modelled.
- Floating point: rates, lengths and `step` are exact reals, and `Math.round` is `floor(x + 1/2)`. NaN, infinities and rounding error are not modelled.
- Converter.Convert: requires `ConvertEnds` of the frames it will grab: `Resamplable` rates, or no image frame. A zero source rate or length makes `step` zero or NaN, and the code then does not end at the first image frame. A zero target rate (an infinite `step`) and negative rates are excluded too, although there the code ends: it records the first image frame and drops every later one. IEEE infinities and a negative `step` are not modelled.
- Actions.BuildTargetFilePath: does what the corrected `Actions.BuildTarget` says. For a one-segment target (a file directly in the source under an unset destination) the code throws `NullPointerException` at src/main/java/ua/od/whcrow/bfpu/cli/actions/AbstractAction.java:48-49. `Actions.BuildTargetAsWritten` models that case.
- Converter.BuildTargetFilePath: inherits the corrected target step, where the code throws `NullPointerException` for a one-segment target.
- Converter.ConvertSourceFile: follows `Converter.ConvertFile`, built on the corrected target step. For a file directly in the source under an unset destination it converts to the bare name, where the code throws `NullPointerException`.
- Converter.ConvertPaths: follows `Converter.ConvertAll` over the corrected target step, so the code's `NullPointerException` for a top-level file under an unset destination does not end the loop here.
- Converter.Run: follows `Converter.RunSpec` over the corrected target step. The code's `run` throws `NullPointerException` at the first file directly in the source when the destination is unset.
- Converter.FailTolerantRunStops: lists the early ends of the run over the corrected target step. The code's `NullPointerException` for a top-level file under an unset destination is not among them.
- CommandLine.ProcessFile: does what the corrected `CommandLine.ProcessFileStep` says. The code throws `NullPointerException` at src/main/java/ua/od/whcrow/bfpu/cli/actions/CommandLineAction.java:93 for a file directly in the source under an unset destination. `CommandLine.ProcessFileAsWritten` models that case.
- CommandLine.ProcessPaths: follows `CommandLine.ProcessAll` over the corrected step, so the code's `NullPointerException` escaping the `forEach` does not occur here.
- CommandLine.Run: follows `CommandLine.RunSpec` over the corrected step. Where the code throws `NullPointerException` for a top-level file under an unset destination, the model runs the command.
- CommandLine.LogStep: "fail-tolerant iterations never throw" holds for the corrected step. The code's iteration throws `NullPointerException` for a top-level file under an unset destination, whatever `failTolerant` says.
- CommandLine.FailTolerantProcessesAll: holds for the corrected step. In the code, a top-level file under an unset destination throws `NullPointerException` out of the `forEach`, and the later files get no outcome.
- CommandLine.RunFailTolerant: holds for the corrected step. In the code, the run also fails with `NullPointerException` for a top-level file under an unset destination.
- Converter.Run: requires `RunEnds`, that `convert` ends on every enumerated file once both codecs resolve. `Converter.RunSpec`, `Converter.ConvertAll`, `Converter.ConvertPaths` and `Converter.FailTolerantRunStops` carry the same requirement on their files. The code diverges only on a file whose conversion it reaches, not on one that is skipped or fails before `convert`.
- Reflection over `avcodec`'s fields is not modelled. The fields are a given sequence of (name, static, int-typed, value) records, and `ExceptionUtil.sneakySupply` has no behaviour to model.
- Process spawning, reading the process output and `waitFor` are not modelled. A command's run is a given function from the argument list to its output lines and either an exit code or an exception.
- Glob syntax (`PathMatcher`) is not modelled: the glob is a given predicate on the file name. Symbolic links and file attributes beyond regular file versus directory are left out of `Files.find`. `Files.find` is modelled as a depth-first walk of a tree in which directories may be unreadable. Its order is the tree's order.
- Converter.Process: JavaCV's own exception messages and causes are not modelled. A grabber or recorder failure carries only its class. A `grab` that throws mid-stream is modelled (`Media.Source.failsAt`). A `record`, `stop` or `close` that throws is not, and neither is the content of a partly written target: only its existence is.
- JavaText.ToUpper: maps ASCII letters only, as the root locale does. Java's `toUpperCase()` uses the default locale and full Unicode case mapping: it maps `ß` to `SS`, the `ﬀ` ligature to `FF`, and `i` to `İ` under a Turkish locale. A codec name with such characters can resolve differently in the code.
- Paths are compared as written. `.` and `..` segments are not normalised, and a relative path is not resolved against the working directory, so `a/../b` and `b`, or `.` and the empty path, are different files and directories here. A destination of `.` is a directory named `.` here, created when missing, where the code finds the working directory already in place.
- The enumerated tree is a parameter of each run, independent of the directories and files that the run creates. `Files.find` is lazy, so a target written inside the source directory during a run can be enumerated by the code but is never enumerated here.
- Logging text, timing (`currentTimeMillis`), duration formatting and `toString` builders are not modelled. The command action's output events are modelled because they depend on the configured level.
- Spring plumbing (bootstrap, `Binder`, property binding, the annotation itself) is not modelled. The environment is a map from property names to lists, and the annotation attributes are an optional map.
- `PathException`'s message uses `toAbsolutePath()`, which depends on the working directory. The working directory is an explicit absolute path parameter (`cwd`).
- `BySizeDeduplicator`, `HelpAction` and `FileCopier` are not part of this model: the first two have no behaviour, and the third is a one-shot `Files.copy` program.
- Concurrency and closing of the streams and native resources (`try`-with-resources) are not modelled.

## Findings

| source | as written | input that shows it | evidently intended | confidence | as-written member | corrected member |
|---|---|---|---|---|---|---|
| src/main/java/ua/od/whcrow/bfpu/cli/actions/AbstractAction.java:48-49 | `Files.notExists(targetFile.getParent())` is called on `null` when the target has one segment | destination property unset (so `Path.of("")`), source `/in`, file `/in/a.mp4`: target `a.mp4`, parent null, `NullPointerException` | the target's directory is the working directory, which exists; return `a.mp4` | high, not executed | Actions.BuildTargetAsWritten (shown by Actions.TopLevelFileWithoutDestination) | Actions.BuildTarget (Actions.BuildTargetEffect) |
| src/main/java/ua/od/whcrow/bfpu/cli/actions/CommandLineAction.java:92-93 | the same `getParent()` null reaches `Files.notExists` in `processFile` | destination unset, a file directly in the source directory: `NullPointerException` escapes the `forEach`, whatever `failTolerant` says | run the command with the target in the working directory | high, not executed | CommandLine.ProcessFileAsWritten (shown by CommandLine.TopLevelFileWithoutDestination) | CommandLine.ProcessFileStep (CommandLine.ProcessFileOutcome) |

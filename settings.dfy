/**
 * The run configuration: the bound `Properties` record, the `Setting` interface the actions read,
 * and `SettingImpl`, whose constructor validates the source and creates the destination.
 *
 * Paths are keyed as written: a relative path names an entry under the working directory (the
 * empty path), an absolute one an entry under the root.
 */
module Settings {
  import opened Wrappers
  import opened JavaText
  import opened Paths
  import opened Exceptions
  import opened FileSystems
  import opened Sequences

  /**
   * `Properties`, the configuration record. An unset string or array property binds to null,
   * which is `None`.
   */
  datatype Properties = Properties(
    actions: Option<seq<string>>,
    source: Option<string>,
    destination: Option<string>,
    recursive: bool,
    glob: Option<string>,
    skipOnExistingTarget: bool,
    failTolerant: bool)

  /** The `Setting` interface: the six values an action reads through its getters. */
  datatype Setting = Setting(
    source: Path,
    destination: Path,
    recursive: bool,
    glob: Option<string>,
    skipOnExistingTarget: bool,
    failTolerant: bool)

  /**
   * The five fields of `SettingImpl`, which its getters return as stored. It keeps no
   * `skipOnExistingTarget`.
   */
  datatype SettingImpl = SettingImpl(
    source: Path,
    destination: Path,
    recursive: bool,
    glob: Option<string>,
    failTolerant: bool)

  /** `StringUtils.isBlank` on a nullable string. */
  predicate IsBlankText(s: Option<string>) {
    s.None? || IsBlank(s.value)
  }

  const SourceBlank := "Source cannot be blank"
  const SourceNotFound := "source not found"
  const SourceNotDirectory := "source isn't a directory"

  /** The source path the constructor settles on once the blank check has passed. */
  function SourcePath(properties: Properties): Path {
    if IsBlankText(properties.source) then [] else ParsePath(properties.source.value)
  }

  /** `Path.of(destination == null ? "" : destination)`. */
  function DestinationPath(properties: Properties): Path {
    ParsePath(if properties.destination.None? then "" else properties.destination.value)
  }

  /** An I/O failure reported for a path; the JDK puts the path into the message. */
  function IOFailure(p: Path): Throwable {
    Throwable(IOException, ToString(p), None)
  }

  /** What the constructor leaves behind: its outcome and the directories afterwards. */
  datatype Constructed = Constructed(result: Result<SettingImpl, Throwable>, dirs: set<Path>)

  /**
   * The constructor as a function of the file system before it: the checks in their order, then
   * `Files.createDirectory(destination)` when the destination does not exist.
   */
  function Construct(dirs: set<Path>, files: set<Path>, unwritable: set<Path>, properties: Properties,
                     helpOnly: bool, cwd: Path): Constructed
    requires IsAbsolute(cwd)
  {
    if IsBlankText(properties.source) && !helpOnly then
      Constructed(Failure(NewSettingException(SourceBlank, None)), dirs)
    else
      var source := SourcePath(properties);
      if source !in dirs && source !in files then
        Constructed(Failure(NewPathNotFoundException(ToString(Absolute(cwd, source)), Some(SourceNotFound), None)), dirs)
      else if source !in dirs then
        Constructed(Failure(NewPathException(ToString(Absolute(cwd, source)), SourceNotDirectory, None)), dirs)
      else
        var destination := DestinationPath(properties);
        var missing := destination !in dirs && destination !in files;
        if missing && !(HasFileName(destination) && ContainingDir(destination) in dirs && destination !in unwritable) then
          Constructed(Failure(IOFailure(destination)), dirs)
        else
          var setting := SettingImpl(source, destination, properties.recursive, properties.glob, properties.failTolerant);
          Constructed(Success(setting), if missing then dirs + {destination} else dirs)
  }

  /** `new SettingImpl(properties, helpOnly)`, against the file system `fs`. */
  method NewSettingImpl(fs: FileSystem, properties: Properties, helpOnly: bool, cwd: Path)
    returns (r: Result<SettingImpl, Throwable>)
    requires fs.Valid() && IsAbsolute(cwd)
    modifies fs
    ensures fs.Valid() && fs.files == old(fs.files)
    ensures Constructed(r, fs.dirs) == Construct(old(fs.dirs), old(fs.files), fs.unwritable, properties, helpOnly, cwd)
  {
    var source: Path;
    if IsBlankText(properties.source) {
      if !helpOnly {
        return Failure(NewSettingException(SourceBlank, None));
      }
      source := [];
    } else {
      source := ParsePath(properties.source.value);
    }
    if !fs.Exists(source) {
      return Failure(NewPathNotFoundException(ToString(Absolute(cwd, source)), Some(SourceNotFound), None));
    }
    if !fs.IsDirectory(source) {
      return Failure(NewPathException(ToString(Absolute(cwd, source)), SourceNotDirectory, None));
    }
    var destination := DestinationPath(properties);
    if !fs.Exists(destination) {
      var created := fs.CreateDirectory(destination);
      if !created {
        return Failure(IOFailure(destination));
      }
    }
    r := Success(SettingImpl(source, destination, properties.recursive, properties.glob, properties.failTolerant));
  }

  // ---------------------------------------------------------------------------
  // Properties of the constructor
  // ---------------------------------------------------------------------------

  /**
   * A blank source outside help mode is rejected before any file-system check: the outcome is
   * the same whatever the file system holds, and nothing is created.
   */
  lemma BlankSourceRejected(dirs1: set<Path>, files1: set<Path>, unwritable1: set<Path>,
                            dirs2: set<Path>, files2: set<Path>, unwritable2: set<Path>,
                            properties: Properties, cwd: Path)
    requires IsAbsolute(cwd) && IsBlankText(properties.source)
    ensures var o := Construct(dirs1, files1, unwritable1, properties, false, cwd);
      o.result == Construct(dirs2, files2, unwritable2, properties, false, cwd).result
      && o.result.Failure? && o.result.error.kind == SettingException && o.result.error.message == SourceBlank
      && o.dirs == dirs1
  {
  }

  /**
   * In help mode a blank source is the working directory, which always exists, so none of the
   * source checks can fail; only creating the destination can.
   */
  lemma HelpOnlyBlankSourceIsWorkingDirectory(dirs: set<Path>, files: set<Path>, unwritable: set<Path>,
                                              properties: Properties, cwd: Path)
    requires Closed(dirs) && IsAbsolute(cwd) && IsBlankText(properties.source)
    ensures var o := Construct(dirs, files, unwritable, properties, true, cwd);
      (o.result.Success? ==> o.result.value.source == [])
      && (o.result.Failure? ==> o.result.error.kind == IOException)
  {
  }

  /**
   * A source that does not exist is reported as not found, with its absolute text, and not as a
   * non-directory, although it is not a directory either; nothing is created.
   */
  lemma MissingSourceReported(dirs: set<Path>, files: set<Path>, unwritable: set<Path>,
                              properties: Properties, helpOnly: bool, cwd: Path)
    requires IsAbsolute(cwd) && !IsBlankText(properties.source)
    requires SourcePath(properties) !in dirs && SourcePath(properties) !in files
    ensures var o := Construct(dirs, files, unwritable, properties, helpOnly, cwd);
      o.result.Failure? && o.result.error.kind == PathNotFoundException
      && IsA(o.result.error.kind, PathException)
      && o.result.error.message
         == "Path \"" + ToString(Absolute(cwd, ParsePath(properties.source.value))) + "\": " + SourceNotFound
      && o.dirs == dirs
  {
    assert IsA(PathNotFoundException, PathException) by {
      assert Super(PathNotFoundException) == Some(PathException);
    }
    var path := ToString(Absolute(cwd, ParsePath(properties.source.value)));
    assert Construct(dirs, files, unwritable, properties, helpOnly, cwd)
        == Constructed(Failure(NewPathNotFoundException(path, Some(SourceNotFound), None)), dirs);
  }

  /** A source that exists but is a regular file is reported as not being a directory. */
  lemma FileSourceReported(dirs: set<Path>, files: set<Path>, unwritable: set<Path>,
                           properties: Properties, helpOnly: bool, cwd: Path)
    requires IsAbsolute(cwd) && !IsBlankText(properties.source)
    requires SourcePath(properties) !in dirs && SourcePath(properties) in files
    ensures var o := Construct(dirs, files, unwritable, properties, helpOnly, cwd);
      o.result.Failure? && o.result.error.kind == PathException
      && o.result.error.message
         == "Path \"" + ToString(Absolute(cwd, ParsePath(properties.source.value))) + "\": " + SourceNotDirectory
      && o.dirs == dirs
  {
    var path := ToString(Absolute(cwd, ParsePath(properties.source.value)));
    assert SourcePath(properties) == ParsePath(properties.source.value);
    assert Construct(dirs, files, unwritable, properties, helpOnly, cwd)
        == Constructed(Failure(NewPathException(path, SourceNotDirectory, None)), dirs);
  }

  /**
   * The constructor succeeds exactly when the source passes its checks and the destination
   * either exists or can be created as a single directory.
   */
  lemma ConstructSucceeds(dirs: set<Path>, files: set<Path>, unwritable: set<Path>,
                          properties: Properties, helpOnly: bool, cwd: Path)
    requires IsAbsolute(cwd)
    ensures var d := DestinationPath(properties);
      Construct(dirs, files, unwritable, properties, helpOnly, cwd).result.Success? <==>
        (!IsBlankText(properties.source) || helpOnly) && SourcePath(properties) in dirs
        && (d in dirs || d in files || (HasFileName(d) && ContainingDir(d) in dirs && d !in unwritable))
  {
  }

  /**
   * After success the source is a directory, the destination exists (created as a directory
   * if it was missing, and nothing else is created), and the flags are copied unchanged. A failed
   * construction creates nothing.
   */
  lemma ConstructEffect(dirs: set<Path>, files: set<Path>, unwritable: set<Path>,
                        properties: Properties, helpOnly: bool, cwd: Path)
    requires Closed(dirs) && dirs !! files && IsAbsolute(cwd)
    ensures var o := Construct(dirs, files, unwritable, properties, helpOnly, cwd);
      Closed(o.dirs) && o.dirs !! files
      && (o.result.Failure? ==> o.dirs == dirs)
      && (o.result.Success? ==>
            var s := o.result.value;
            s.source == SourcePath(properties) && s.source in dirs
            && s.destination == DestinationPath(properties)
            && (s.destination in o.dirs || s.destination in files)
            && o.dirs == (if s.destination in dirs || s.destination in files then dirs else dirs + {s.destination})
            && s.recursive == properties.recursive && s.glob == properties.glob
            && s.failTolerant == properties.failTolerant)
  {
    var d := DestinationPath(properties);
    if d !in dirs && d !in files && HasFileName(d) && ContainingDir(d) in dirs {
      ClosedAdd(dirs, d);
    }
  }

  /** A missing destination property means the working directory, which needs no creating. */
  lemma NullDestinationIsWorkingDirectory(dirs: set<Path>, files: set<Path>, unwritable: set<Path>,
                                          properties: Properties, helpOnly: bool, cwd: Path)
    requires Closed(dirs) && IsAbsolute(cwd) && properties.destination.None?
    ensures var o := Construct(dirs, files, unwritable, properties, helpOnly, cwd);
      o.dirs == dirs && (o.result.Success? ==> o.result.value.destination == [])
  {
  }
}

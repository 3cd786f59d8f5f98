/**
 * `AbstractAction`, the base of the file-processing actions: enumerating the source files
 * (`createPathStream`), mapping a source file to its target under the destination and creating
 * the target's directories (`buildTargetFilePath`), and rewriting a file extension
 * (`withExtension`).
 *
 * The glob matcher of `FileSystems.getPathMatcher("glob:...")` is the parameter `matches`; the
 * directory tree at the source is the parameter `tree`.
 */
module Actions {
  import opened Wrappers
  import opened JavaText
  import opened Paths
  import opened Exceptions
  import opened FileSystems
  import opened FileTree
  import opened FileNames
  import opened Settings

  /** `Integer.MAX_VALUE`, the depth of a recursive enumeration. */
  const MAX_INT := 2147483647

  const FindFailed := "Failed to find the files matching given setting"

  /**
   * The `UncheckedIOException` the stream's iterator throws on reaching a directory it cannot
   * open; its message comes from the JDK and is not modelled.
   */
  const WalkFailed := Throwable(UncheckedIOException, "", None)

  function MaxDepth(recursive: bool): nat {
    if recursive then MAX_INT else 1
  }

  /** The name test of the file predicate: every name for a blank glob, else the glob's matcher. */
  function NameFilter(glob: Option<string>, matches: (string, string) -> bool): string -> bool {
    if IsBlankText(glob) then (name: string) => true else (name: string) => matches(glob.value, name)
  }

  /** `Files.find(source, depth, filePredicate)` for a setting, as both actions call it. */
  function FindFiles(setting: Setting, tree: Entry, matches: (string, string) -> bool): FindResult {
    Find(setting.source, tree, MaxDepth(setting.recursive), NameFilter(setting.glob, matches))
  }

  /**
   * `createPathStream`: the enumeration, or the `ActionRunException` that wraps the `IOException`
   * of a source directory that cannot be opened.
   */
  function CreatePathStream(actionName: string, setting: Setting, tree: Entry, matches: (string, string) -> bool)
    : (r: Result<Walk, Throwable>)
    ensures r.Failure? <==> tree.UnreadableDirectory?
    ensures r.Failure? ==>
      r.error == NewActionRunException(actionName, FindFailed, Some(IOFailure(setting.source)))
  {
    match FindFiles(setting, tree, matches)
    case StartFailed => Failure(NewActionRunException(actionName, FindFailed, Some(IOFailure(setting.source))))
    case Started(walk) => Success(walk)
  }

  /**
   * Every enumerated path lies under the source and leads in the tree to a regular file within
   * the depth bound whose name the glob accepts (every name, for a blank glob).
   */
  lemma PathStreamSound(actionName: string, setting: Setting, tree: Entry, matches: (string, string) -> bool)
    requires WellFormed(tree)
    ensures var r := CreatePathStream(actionName, setting, tree, matches);
      r.Success? ==> forall p :: p in r.value.paths ==>
        IsPrefix(setting.source, p) && |p| - |setting.source| <= MaxDepth(setting.recursive)
        && var e := Lookup(tree, p[|setting.source|..]);
        e.Some? && e.value.RegularFile?
        && (IsBlankText(setting.glob) || matches(setting.glob.value, e.value.name))
  {
    VisitSound(setting.source, tree, 0, MaxDepth(setting.recursive), NameFilter(setting.glob, matches));
  }

  /** Where no directory within reach is unreadable, every accepted regular file in reach is enumerated. */
  lemma PathStreamComplete(actionName: string, setting: Setting, tree: Entry, matches: (string, string) -> bool,
                           rel: seq<string>)
    requires WellFormed(tree) && Readable(tree, 0, MaxDepth(setting.recursive))
    requires |rel| <= MaxDepth(setting.recursive)
    requires var e := Lookup(tree, rel); e.Some? && e.value.RegularFile?
    requires IsBlankText(setting.glob) || matches(setting.glob.value, Lookup(tree, rel).value.name)
    ensures var r := CreatePathStream(actionName, setting, tree, matches);
      r.Success? && !r.value.failed && setting.source + rel in r.value.paths
  {
    var depth, accept := MaxDepth(setting.recursive), NameFilter(setting.glob, matches);
    VisitComplete(setting.source, tree, 0, depth, accept, rel);
    ReadableWalkSucceeds(setting.source, tree, 0, depth, accept);
  }

  /** A non-recursive enumeration of a source directory yields only its direct children. */
  lemma NonRecursiveYieldsChildren(actionName: string, setting: Setting, tree: Entry, matches: (string, string) -> bool)
    requires WellFormed(tree) && tree.Directory? && !setting.recursive
    ensures var r := CreatePathStream(actionName, setting, tree, matches);
      r.Success? && forall p :: p in r.value.paths ==>
        |p| == |setting.source| + 1 && p[..|setting.source|] == setting.source
  {
    DepthOneYieldsChildren(setting.source, tree, NameFilter(setting.glob, matches));
  }

  /** Each enumerated path of a directory meets what `buildTargetFilePath` needs of a source file. */
  lemma EnumeratedFilesAreBeneath(setting: Setting, tree: Entry, matches: (string, string) -> bool, p: Path)
    requires ValidPath(setting.source) && WellFormed(tree) && !tree.RegularFile?
    requires var f := FindFiles(setting, tree, matches); f.Started? && p in f.walk.paths
    ensures Beneath(setting.source, p)
  {
    var depth, accept := MaxDepth(setting.recursive), NameFilter(setting.glob, matches);
    VisitSound(setting.source, tree, 0, depth, accept);
    var source, rel := setting.source, p[|setting.source|..];
    LookupFollowsNames(tree, rel);
    assert p == source + rel;
    forall i | 0 <= i < |p| ensures IsName(p[i]) || (i == 0 && p[i] == Root) {
      if i >= |source| {
        assert p[i] == rel[i - |source|];
      }
    }
  }

  /** Every path of a successful enumeration of a directory meets what `buildTargetFilePath` needs. */
  lemma StreamPathsBeneath(actionName: string, setting: Setting, tree: Entry, matches: (string, string) -> bool)
    requires ValidPath(setting.source) && WellFormed(tree) && !tree.RegularFile?
    ensures var r := CreatePathStream(actionName, setting, tree, matches);
      r.Success? ==> forall p :: p in r.value.paths ==> Beneath(setting.source, p)
  {
    forall p | CreatePathStream(actionName, setting, tree, matches).Success?
               && p in CreatePathStream(actionName, setting, tree, matches).value.paths
      ensures Beneath(setting.source, p)
    {
      EnumeratedFilesAreBeneath(setting, tree, matches, p);
    }
  }

  // ---------------------------------------------------------------------------
  // buildTargetFilePath
  // ---------------------------------------------------------------------------

  /**
   * A source file strictly below the source directory, of the same kind (absolute or relative):
   * what an enumeration of the source directory yields.
   */
  predicate Beneath(sourceDir: Path, sourceFile: Path) {
    IsPrefix(sourceDir, sourceFile) && |sourceFile| > |sourceDir| && ValidPath(sourceFile)
    && IsAbsolute(sourceDir) == IsAbsolute(sourceFile)
  }

  /** `destinationDirPath.resolve(sourceDirPath.relativize(sourceFilePath))`. */
  function TargetFile(sourceDir: Path, sourceFile: Path, destinationDir: Path): (r: Path)
    requires Beneath(sourceDir, sourceFile)
    ensures r == destinationDir + sourceFile[|sourceDir|..]
    ensures HasFileName(r) && FileName(r) == sourceFile[|sourceFile| - 1]
  {
    RelativizeUnderBase(sourceDir, sourceFile);
    assert sourceFile[|sourceDir|..][0] == sourceFile[|sourceDir|];
    Resolve(destinationDir, Relativize(sourceDir, sourceFile))
  }

  function TargetDirFailed(targetDir: Path, sourceFile: Path): string {
    "Failed to create a target sub-dir/s " + ToString(targetDir) + " for " + ToString(sourceFile)
  }

  /** What `buildTargetFilePath` leaves behind: the target or the exception, and the directories. */
  datatype Built = Built(result: Result<Path, Throwable>, dirs: set<Path>)

  /**
   * `buildTargetFilePath(sourceDir, sourceFile, destinationDir)`: the target's directory is
   * created with `Files.createDirectories` when it does not exist. For a target directly in
   * the working directory that directory is the empty path, which always exists.
   */
  function BuildTarget(dirs: set<Path>, files: set<Path>, unwritable: set<Path>, actionName: string,
                       sourceDir: Path, sourceFile: Path, destinationDir: Path): Built
    requires [] in dirs && Beneath(sourceDir, sourceFile)
  {
    var target := TargetFile(sourceDir, sourceFile, destinationDir);
    var targetDir := ContainingDir(target);
    if targetDir in dirs || targetDir in files then Built(Success(target), dirs)
    else
      var m := MkDirs(dirs, files, unwritable, targetDir);
      if m.ok then Built(Success(target), m.dirs)
      else Built(Failure(NewActionRunException(actionName, TargetDirFailed(targetDir, sourceFile),
                                               Some(IOFailure(targetDir)))), m.dirs)
  }

  method BuildTargetFilePath(fs: FileSystem, actionName: string, sourceDir: Path, sourceFile: Path,
                             destinationDir: Path) returns (r: Result<Path, Throwable>)
    requires fs.Valid() && Beneath(sourceDir, sourceFile)
    modifies fs
    ensures fs.Valid() && fs.files == old(fs.files)
    ensures Built(r, fs.dirs)
         == BuildTarget(old(fs.dirs), fs.files, fs.unwritable, actionName, sourceDir, sourceFile, destinationDir)
  {
    var target := TargetFile(sourceDir, sourceFile, destinationDir);
    var targetDir := ContainingDir(target);
    if !fs.Exists(targetDir) {
      var ok := fs.CreateDirectories(targetDir);
      if !ok {
        return Failure(NewActionRunException(actionName, TargetDirFailed(targetDir, sourceFile),
                                             Some(IOFailure(targetDir))));
      }
    }
    r := Success(target);
  }

  /** `buildTargetFilePath(sourceFile, setting)`: the setting's source and destination. */
  method BuildTargetFilePathFor(fs: FileSystem, actionName: string, sourceFile: Path, setting: Setting)
    returns (r: Result<Path, Throwable>)
    requires fs.Valid() && Beneath(setting.source, sourceFile)
    modifies fs
    ensures fs.Valid() && fs.files == old(fs.files)
    ensures Built(r, fs.dirs) == BuildTarget(old(fs.dirs), fs.files, fs.unwritable, actionName,
                                             setting.source, sourceFile, setting.destination)
  {
    r := BuildTargetFilePath(fs, actionName, setting.source, sourceFile, setting.destination);
  }

  /**
   * The target mirrors the source file under the destination: relativizing it against the
   * destination gives the file's path relative to the source, and it keeps the file's name.
   */
  lemma TargetMirrorsSource(sourceDir: Path, sourceFile: Path, destinationDir: Path)
    requires Beneath(sourceDir, sourceFile)
    ensures var t := TargetFile(sourceDir, sourceFile, destinationDir);
      IsAbsolute(t) == IsAbsolute(destinationDir)
      && Relativize(destinationDir, t) == Relativize(sourceDir, sourceFile)
  {
    var rel := sourceFile[|sourceDir|..];
    assert rel[0] == sourceFile[|sourceDir|];
    MirrorRoundTrip(sourceDir, sourceFile, destinationDir);
    RelativizeUnderBase(sourceDir, sourceFile);
    if destinationDir == [] {
      assert destinationDir + rel == rel;
    }
  }

  /**
   * The directories afterwards: only missing ancestors of the target's directory are added;
   * an existing directory means nothing is created; after success the directory exists, and
   * when it was created so were all its ancestors.
   */
  lemma BuildTargetEffect(dirs: set<Path>, files: set<Path>, unwritable: set<Path>, actionName: string,
                          sourceDir: Path, sourceFile: Path, destinationDir: Path)
    requires Closed(dirs) && dirs !! files && Beneath(sourceDir, sourceFile)
    ensures var o := BuildTarget(dirs, files, unwritable, actionName, sourceDir, sourceFile, destinationDir);
      var targetDir := ContainingDir(TargetFile(sourceDir, sourceFile, destinationDir));
      Closed(o.dirs) && o.dirs !! files
      && dirs <= o.dirs <= dirs + Ancestors(targetDir)
      && (o.result.Success? ==> o.result.value == TargetFile(sourceDir, sourceFile, destinationDir))
      && (targetDir in dirs || targetDir in files ==> o.dirs == dirs && o.result.Success?)
      && (o.result.Success? ==> targetDir in o.dirs || targetDir in files)
      && (o.result.Success? && targetDir !in files ==> Ancestors(targetDir) <= o.dirs)
  {
    var targetDir := ContainingDir(TargetFile(sourceDir, sourceFile, destinationDir));
    MkDirsEffect(dirs, files, unwritable, targetDir);
    if targetDir in dirs {
      forall a | a in Ancestors(targetDir) ensures a in dirs {
        var k :| 0 <= k <= |targetDir| && a == targetDir[..k];
      }
    }
    assert targetDir in Ancestors(targetDir) by {
      assert targetDir[..|targetDir|] == targetDir;
    }
  }

  /**
   * It fails exactly when the target's directory is missing and one of its missing ancestors
   * is a regular file or cannot be created; the exception names the directory and the file.
   */
  lemma BuildTargetFails(dirs: set<Path>, files: set<Path>, unwritable: set<Path>, actionName: string,
                         sourceDir: Path, sourceFile: Path, destinationDir: Path)
    requires Closed(dirs) && dirs !! files && Beneath(sourceDir, sourceFile)
    ensures var o := BuildTarget(dirs, files, unwritable, actionName, sourceDir, sourceFile, destinationDir);
      var targetDir := ContainingDir(TargetFile(sourceDir, sourceFile, destinationDir));
      (o.result.Failure? <==>
        targetDir !in dirs && targetDir !in files
        && exists k :: 0 <= k <= |targetDir| && targetDir[..k] !in dirs
                       && (targetDir[..k] in files || targetDir[..k] in unwritable))
      && (o.result.Failure? ==>
            o.result.error.kind == ActionRunException
            && o.result.error.message == ActionMessage(actionName, TargetDirFailed(targetDir, sourceFile)))
  {
    var targetDir := ContainingDir(TargetFile(sourceDir, sourceFile, destinationDir));
    MkDirsSucceeds(dirs, files, unwritable, targetDir);
  }

  // ---------------------------------------------------------------------------
  // The target directory as written: getParent() can be null
  // ---------------------------------------------------------------------------

  /**
   * `buildTargetFilePath` as written: `Files.notExists(targetFile.getParent())` is given a null
   * path, and throws `NullPointerException`, for a target of one segment.
   */
  function BuildTargetAsWritten(dirs: set<Path>, files: set<Path>, unwritable: set<Path>, actionName: string,
                                sourceDir: Path, sourceFile: Path, destinationDir: Path): Built
    requires [] in dirs && Beneath(sourceDir, sourceFile)
  {
    var target := TargetFile(sourceDir, sourceFile, destinationDir);
    if JavaParent(target).None? then Built(Failure(Throwable(NullPointerException, "", None)), dirs)
    else BuildTarget(dirs, files, unwritable, actionName, sourceDir, sourceFile, destinationDir)
  }

  /**
   * With no destination configured (the empty path), a file directly in the source directory
   * has a one-segment target: the code as written throws `NullPointerException`, while the
   * target's directory is the working directory, which exists.
   */
  lemma TopLevelFileWithoutDestination(dirs: set<Path>, files: set<Path>, unwritable: set<Path>,
                                       actionName: string, sourceDir: Path, name: string)
    requires [] in dirs && ValidPath(sourceDir) && IsName(name)
    ensures Beneath(sourceDir, sourceDir + [name])
    ensures BuildTargetAsWritten(dirs, files, unwritable, actionName, sourceDir, sourceDir + [name], []).result
         == Failure(Throwable(NullPointerException, "", None))
    ensures BuildTarget(dirs, files, unwritable, actionName, sourceDir, sourceDir + [name], []).result
         == Success([name])
  {
    ChildOfSourceDir(sourceDir, name);
  }

  /** A name directly in a source directory is beneath it; with no destination its target is the bare name. */
  lemma ChildOfSourceDir(sourceDir: Path, name: string)
    requires ValidPath(sourceDir) && IsName(name)
    ensures Beneath(sourceDir, sourceDir + [name])
    ensures TargetFile(sourceDir, sourceDir + [name], []) == [name]
  {
    var file := sourceDir + [name];
    assert file[..|sourceDir|] == sourceDir;
    assert file[|sourceDir|..] == [name];
    if sourceDir == [] {
      assert file == [name];
    } else {
      assert file[0] == sourceDir[0];
    }
  }

  // ---------------------------------------------------------------------------
  // withExtension
  // ---------------------------------------------------------------------------

  /**
   * `withExtension(filePath, extension)`: the path itself when its name already has the
   * extension, else the sibling named `removeExtension(name) + "." + extension`.
   */
  function WithExtension(p: Path, extension: string): Path
    requires HasFileName(p)
  {
    var name := FileName(p);
    if IsExtension(name, extension) then p
    else Resolve(ContainingDir(p), ParsePath(RemoveExtension(name) + [EXTENSION_SEPARATOR] + extension))
  }

  /** A name with the extension is kept as it is. */
  lemma WithExtensionKeeps(p: Path, extension: string)
    requires HasFileName(p) && IsExtension(FileName(p), extension)
    ensures WithExtension(p, extension) == p
  {
  }

  /**
   * Otherwise, for a plain extension, only the name changes: the text after its last dot, or
   * nothing when it has no extension, becomes the extension.
   */
  lemma WithExtensionRenames(p: Path, extension: string)
    requires ValidPath(p) && HasFileName(p) && PlainExtension(extension)
    requires !IsExtension(FileName(p), extension)
    ensures var q := WithExtension(p, extension);
      HasFileName(q) && ContainingDir(q) == ContainingDir(p)
      && FileName(q) == RemoveExtension(FileName(p)) + [EXTENSION_SEPARATOR] + extension
  {
    var base := RemoveExtension(FileName(p));
    var name := base + [EXTENSION_SEPARATOR] + extension;
    SingleSegment(name);
  }

  /** The name that replaces a file name is a single path segment, not an absolute path. */
  lemma SingleSegment(name: string)
    requires name != [] && '/' !in name
    ensures ParsePath(name) == [name]
  {
    assert name[0] in name;
    assert IndexOf(name, '/') < 0;
  }

  /** For a plain extension the result has that extension (when it is not empty) and keeps the base name. */
  lemma WithExtensionSetsExtension(p: Path, extension: string)
    requires ValidPath(p) && HasFileName(p) && PlainExtension(extension)
    ensures var q := WithExtension(p, extension);
      HasFileName(q) && ContainingDir(q) == ContainingDir(p)
      && RemoveExtension(FileName(q)) == RemoveExtension(FileName(p))
      && (extension != "" ==> IsExtension(FileName(q), extension))
  {
    if !IsExtension(FileName(p), extension) {
      WithExtensionRenames(p, extension);
      AppendExtension(RemoveExtension(FileName(p)), extension);
    }
  }

  /** Rewriting the extension twice is rewriting it once, for every plain extension. */
  lemma WithExtensionIdempotent(p: Path, extension: string)
    requires ValidPath(p) && HasFileName(p) && PlainExtension(extension)
    ensures HasFileName(WithExtension(p, extension))
    ensures WithExtension(WithExtension(p, extension), extension) == WithExtension(p, extension)
  {
    var q := WithExtension(p, extension);
    if q != p {
      WithExtensionRenames(p, extension);
      var base := RemoveExtension(FileName(p));
      AppendExtension(base, extension);
      if !IsExtension(FileName(q), extension) {
        var name := base + [EXTENSION_SEPARATOR] + extension;
        SingleSegment(name);
        assert q == ContainingDir(q) + [FileName(q)];
      }
    }
  }
}

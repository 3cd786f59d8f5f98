/**
 * The part of the file system the core changes: which paths exist as directories and which as
 * regular files. `unwritable` lists the paths where creating a directory or a file fails with an
 * I/O error (a permission or device failure, outside the program's control).
 *
 * `Files.createDirectories`, `Files.createDirectory` and the file creation done when a recorder
 * opens its output are JDK and FFmpeg operations; each method below takes on the effect given by
 * a specification function, and the lemmas state what those effects are.
 */
module FileSystems {
  import opened Paths

  /** Every prefix of a directory is a directory, and the empty path (the working directory) exists. */
  predicate Closed(dirs: set<Path>) {
    [] in dirs && forall d, k | d in dirs && 0 <= k <= |d| :: d[..k] in dirs
  }

  /** The paths `createDirectories(p)` has to make exist: `p` and its ancestors. */
  function Ancestors(p: Path): set<Path> {
    set k | 0 <= k <= |p| :: p[..k]
  }

  datatype Made = Made(ok: bool, dirs: set<Path>)

  /**
   * `Files.createDirectories(p)`: creates the missing ancestors from the top down; fails at the
   * first one that is a regular file or whose creation fails, keeping those made before it.
   */
  function MkDirs(dirs: set<Path>, files: set<Path>, unwritable: set<Path>, p: Path): (m: Made)
    requires [] in dirs
    ensures dirs <= m.dirs
    decreases |p|
  {
    if p in dirs then Made(true, dirs)
    else if p in files then Made(false, dirs)
    else
      var up := MkDirs(dirs, files, unwritable, p[..|p| - 1]);
      if !up.ok then up
      else if p in unwritable then Made(false, up.dirs)
      else Made(true, up.dirs + {p})
  }

  /**
   * What `MkDirs` adds: nothing but missing ancestors of `p`; on success all of them. The
   * result stays prefix-closed and apart from the regular files.
   */
  lemma {:induction false} MkDirsEffect(dirs: set<Path>, files: set<Path>, unwritable: set<Path>, p: Path)
    requires Closed(dirs) && dirs !! files
    ensures var m := MkDirs(dirs, files, unwritable, p);
      dirs <= m.dirs <= dirs + Ancestors(p) && Closed(m.dirs) && m.dirs !! files
      && (m.ok ==> m.dirs == dirs + Ancestors(p))
    decreases |p|
  {
    var m := MkDirs(dirs, files, unwritable, p);
    if p in dirs {
      assert Ancestors(p) <= dirs by {
        forall a | a in Ancestors(p) ensures a in dirs {
          var k :| 0 <= k <= |p| && a == p[..k];
        }
      }
    } else if p !in files {
      var up := p[..|p| - 1];
      MkDirsEffect(dirs, files, unwritable, up);
      assert Ancestors(p) == Ancestors(up) + {p} by {
        forall a | a in Ancestors(p) ensures a in Ancestors(up) + {p} {
          var k :| 0 <= k <= |p| && a == p[..k];
          if k < |p| {
            assert a == up[..k];
            assert up[..k] in Ancestors(up);
          } else {
            assert a == p;
          }
        }
        forall a | a in Ancestors(up) ensures a in Ancestors(p) {
          var k :| 0 <= k <= |up| && a == up[..k];
          assert a == p[..k];
        }
        assert p == p[..|p|];
      }
      var u := MkDirs(dirs, files, unwritable, up);
      if u.ok && p !in unwritable {
        assert Closed(u.dirs + {p}) by {
          forall d, k | d in u.dirs + {p} && 0 <= k <= |d| ensures d[..k] in u.dirs + {p} {
            if d == p && k < |p| {
              assert d[..k] == up[..k];
              assert up[..k] in Ancestors(up);
            }
          }
        }
      }
    }
  }

  /**
   * `MkDirs` succeeds exactly when every ancestor of `p` that is not yet a directory is neither a
   * regular file nor unwritable.
   */
  lemma {:induction false} MkDirsSucceeds(dirs: set<Path>, files: set<Path>, unwritable: set<Path>, p: Path)
    requires Closed(dirs) && dirs !! files
    ensures MkDirs(dirs, files, unwritable, p).ok <==>
      forall k :: 0 <= k <= |p| && p[..k] !in dirs ==> p[..k] !in files && p[..k] !in unwritable
    decreases |p|
  {
    if p in dirs {
      forall k | 0 <= k <= |p| ensures p[..k] in dirs { }
    } else if p in files {
      assert p[..|p|] == p;
    } else {
      var up := p[..|p| - 1];
      MkDirsSucceeds(dirs, files, unwritable, up);
      forall k | 0 <= k <= |up| ensures up[..k] == p[..k] { }
      assert p[..|p|] == p;
    }
  }

  /** Adding a directory whose containing directory exists keeps the set prefix-closed. */
  lemma ClosedAdd(dirs: set<Path>, p: Path)
    requires Closed(dirs) && HasFileName(p) && ContainingDir(p) in dirs
    ensures Closed(dirs + {p})
  {
    var up := ContainingDir(p);
    forall d, k | d in dirs + {p} && 0 <= k <= |d| ensures d[..k] in dirs + {p} {
      if d != p {
        assert d in dirs;
      } else if k == |p| {
        assert d[..k] == p;
      } else {
        assert k <= |up| && d[..k] == up[..k];
        assert up in dirs;
      }
    }
  }

  class FileSystem {
    var dirs: set<Path>
    var files: set<Path>
    const unwritable: set<Path>

    ghost predicate Valid()
      reads this
    {
      Closed(dirs) && dirs !! files
    }

    constructor (dirs: set<Path>, files: set<Path>, unwritable: set<Path>)
      requires Closed(dirs) && dirs !! files
      ensures Valid() && this.dirs == dirs && this.files == files && this.unwritable == unwritable
    {
      this.dirs, this.files, this.unwritable := dirs, files, unwritable;
    }

    /** `Files.exists`; `Files.notExists` is its negation for the paths modelled here. */
    predicate Exists(p: Path)
      reads this
    {
      p in dirs || p in files
    }

    predicate IsDirectory(p: Path)
      reads this
    {
      p in dirs
    }

    /** `Files.createDirectories(p)`; `ok == false` is the `IOException`. */
    method CreateDirectories(p: Path) returns (ok: bool)
      requires Valid()
      modifies this
      ensures Valid() && files == old(files)
      ensures Made(ok, dirs) == MkDirs(old(dirs), files, unwritable, p)
      ensures old(dirs) <= dirs <= old(dirs) + Ancestors(p)
      ensures ok ==> dirs == old(dirs) + Ancestors(p)
    {
      MkDirsEffect(dirs, files, unwritable, p);
      var m := MkDirs(dirs, files, unwritable, p);
      ok, dirs := m.ok, m.dirs;
    }

    /**
     * `Files.createDirectory(p)`: one directory, which must not exist yet and whose parent (the
     * working directory for a bare name) must be a directory.
     */
    method CreateDirectory(p: Path) returns (ok: bool)
      requires Valid()
      modifies this
      ensures Valid() && files == old(files)
      ensures ok <==> !old(Exists(p)) && HasFileName(p) && ContainingDir(p) in old(dirs) && p !in unwritable
      ensures dirs == if ok then old(dirs) + {p} else old(dirs)
    {
      ok := !Exists(p) && HasFileName(p) && ContainingDir(p) in dirs && p !in unwritable;
      if ok {
        ClosedAdd(dirs, p);
        dirs := dirs + {p};
      }
    }

    /** Opening an output file for writing: creates it unless it is a directory, its directory is missing or it is unwritable. */
    method CreateFile(p: Path) returns (ok: bool)
      requires Valid()
      modifies this
      ensures Valid() && dirs == old(dirs)
      ensures ok <==> p !in dirs && HasFileName(p) && ContainingDir(p) in dirs && p !in unwritable
      ensures files == if ok then old(files) + {p} else old(files)
    {
      ok := p !in dirs && HasFileName(p) && ContainingDir(p) in dirs && p !in unwritable;
      if ok {
        files := files + {p};
      }
    }
  }
}

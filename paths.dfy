/**
 * `java.nio.file.Path` on a Unix file system, as a sequence of name segments. An absolute
 * path starts with the root segment "/"; the empty sequence is `Path.of("")`, which the JDK
 * resolves against the working directory.
 */
module Paths {
  import opened Wrappers
  import opened JavaText
  import opened Sequences

  type Path = seq<string>

  const Root := "/"

  predicate IsAbsolute(p: Path) {
    |p| > 0 && p[0] == Root
  }

  /** A name segment: non-empty and free of '/'. */
  predicate IsName(s: string) {
    s != [] && '/' !in s
  }

  /** What `Path.of` can produce: the root at most as the first segment, names elsewhere. */
  predicate ValidPath(p: Path) {
    forall i :: 0 <= i < |p| ==> IsName(p[i]) || (i == 0 && p[i] == Root)
  }

  /** A path that `getFileName` gives a name for: neither the empty path nor the root. */
  predicate HasFileName(p: Path) {
    |p| > 0 && p[|p| - 1] != Root
  }

  /** `getFileName().toString()`. */
  function FileName(p: Path): string
    requires HasFileName(p)
  {
    p[|p| - 1]
  }

  /** `getParent()`: the JDK answers null for a path of one segment (a bare name or the root). */
  function JavaParent(p: Path): (r: Option<Path>)
    ensures r.Some? <==> |p| >= 2
    ensures r.Some? ==> r.value + [p[|p| - 1]] == p
  {
    if |p| >= 2 then Some(p[..|p| - 1]) else None
  }

  /**
   * The directory a file is created in: its parent, or the working directory (the empty path)
   * for a bare name.
   */
  function ContainingDir(p: Path): (r: Path)
    requires HasFileName(p)
    ensures r + [FileName(p)] == p
    ensures JavaParent(p).Some? ==> r == JavaParent(p).value
  {
    p[..|p| - 1]
  }

  /** `resolve`: an absolute argument replaces the base; a relative one is appended to it. */
  function Resolve(base: Path, other: Path): Path {
    if IsAbsolute(other) then other else base + other
  }

  /** `resolveSibling(name)`: the name in place of the last segment. */
  function ResolveSibling(p: Path, name: string): (r: Path)
    requires HasFileName(p)
    ensures |r| == |p| && ContainingDir(p) == r[..|r| - 1] && r[|r| - 1] == name
  {
    ContainingDir(p) + [name]
  }

  /** Length of the longest common prefix. */
  function CommonPrefix(a: Path, b: Path): (n: nat)
    ensures n <= |a| && n <= |b| && a[..n] == b[..n]
    ensures n < |a| && n < |b| ==> a[n] != b[n]
    decreases |a|
  {
    if a == [] || b == [] || a[0] != b[0] then 0
    else
      var n := CommonPrefix(a[1..], b[1..]);
      assert a[..n + 1] == [a[0]] + a[1..][..n];
      assert b[..n + 1] == [b[0]] + b[1..][..n];
      1 + n
  }

  function Ups(n: nat): (r: Path)
    ensures |r| == n && forall i :: 0 <= i < n ==> r[i] == ".."
  {
    if n == 0 then [] else Ups(n - 1) + [".."]
  }

  /**
   * `relativize` between two paths of the same kind (both absolute or both relative): one ".."
   * per segment of `base` beyond the common prefix, then the rest of `p`.
   */
  function Relativize(base: Path, p: Path): Path
    requires IsAbsolute(base) == IsAbsolute(p)
  {
    var c := CommonPrefix(base, p);
    Ups(|base| - c) + p[c..]
  }

  predicate IsPrefix(base: Path, p: Path) {
    |base| <= |p| && p[..|base|] == base
  }

  /** Under its base, a path relativizes to the segments after the base. */
  lemma RelativizeUnderBase(base: Path, p: Path)
    requires IsPrefix(base, p) && (IsAbsolute(base) || !IsAbsolute(p))
    ensures IsAbsolute(base) == IsAbsolute(p)
    ensures Relativize(base, p) == p[|base|..]
  {
    var c := CommonPrefix(base, p);
    assert c == |base|;
  }

  /**
   * Mirroring a file of `source` under `destination` and relativizing the result against
   * `destination` gives back the file's path relative to `source`.
   */
  lemma MirrorRoundTrip(source: Path, file: Path, destination: Path)
    requires IsPrefix(source, file) && (IsAbsolute(source) || !IsAbsolute(file))
    requires ValidPath(file) && |file| > |source|
    requires IsAbsolute(destination) || !IsAbsolute(file[|source|..])
    ensures IsAbsolute(destination) == IsAbsolute(Resolve(destination, Relativize(source, file)))
    ensures Relativize(destination, Resolve(destination, Relativize(source, file))) == file[|source|..]
  {
    RelativizeUnderBase(source, file);
    var rel := file[|source|..];
    assert rel[0] == file[|source|];
    assert !IsAbsolute(rel);
    var target := destination + rel;
    assert target[..|destination|] == destination;
    if destination == [] {
      assert target == rel;
    }
    RelativizeUnderBase(destination, target);
    assert target[|destination|..] == rel;
  }

  /** `toAbsolutePath`, given the absolute working directory. */
  function Absolute(cwd: Path, p: Path): (r: Path)
    requires IsAbsolute(cwd)
    ensures IsAbsolute(r)
  {
    if IsAbsolute(p) then p else cwd + p
  }

  // ---------------------------------------------------------------------------
  // Path.of(String) and toString()
  // ---------------------------------------------------------------------------

  /** The segments of a relative path text, with empty segments (repeated or trailing '/') dropped. */
  function Segments(s: string): (r: Path)
    ensures forall i :: 0 <= i < |r| ==> IsName(r[i])
    decreases |s|
  {
    if s == [] then []
    else
      var k := IndexOf(s, '/');
      if k < 0 then [s]
      else
        assert '/' !in s[..k] by {
          forall i | 0 <= i < k ensures s[..k][i] != '/' {
            assert s[..k][i] == s[i];
          }
        }
        (if k == 0 then [] else [s[..k]]) + Segments(s[k + 1..])
  }

  /** `Path.of(s)` on Unix: a leading '/' is the root; redundant separators are dropped. */
  function ParsePath(s: string): (p: Path)
    ensures ValidPath(p)
    ensures IsAbsolute(p) <==> (|s| > 0 && s[0] == '/')
  {
    if |s| > 0 && s[0] == '/' then [Root] + Segments(s[1..]) else Segments(s)
  }

  function Join(segments: seq<string>): string {
    if segments == [] then ""
    else if |segments| == 1 then segments[0]
    else segments[0] + "/" + Join(segments[1..])
  }

  /** `Path.toString()`: the segments joined by '/', the root contributing only its '/'. */
  function ToString(p: Path): string {
    if IsAbsolute(p) then "/" + Join(p[1..]) else Join(p)
  }

  /** The first '/' after a name is the separator that follows it. */
  lemma IndexOfSeparator(head: string, rest: string)
    requires '/' !in head
    ensures IndexOf(head + "/" + rest, '/') == |head|
  {
    var s := head + "/" + rest;
    assert s[|head|] == '/';
    assert forall i :: 0 <= i < |head| ==> s[i] == head[i];
  }

  lemma {:induction false} SegmentsOfJoin(segments: seq<string>)
    requires forall i :: 0 <= i < |segments| ==> IsName(segments[i])
    ensures Segments(Join(segments)) == segments
    decreases |segments|
  {
    if |segments| == 1 {
      assert IndexOf(segments[0], '/') < 0;
    } else if |segments| > 1 {
      var head, rest := segments[0], Join(segments[1..]);
      var s := head + "/" + rest;
      Surrounded(head, "/", rest);
      IndexOfSeparator(head, rest);
      SegmentsOfJoin(segments[1..]);
      Cons(segments);
    }
  }

  /** `Path.of(p.toString())` is `p`. */
  lemma ParseToString(p: Path)
    requires ValidPath(p)
    ensures ParsePath(ToString(p)) == p
  {
    if IsAbsolute(p) {
      assert forall i :: 0 <= i < |p[1..]| ==> p[1..][i] == p[i + 1];
      SegmentsOfJoin(p[1..]);
      assert ("/" + Join(p[1..]))[1..] == Join(p[1..]);
      assert p == [Root] + p[1..];
    } else {
      SegmentsOfJoin(p);
      if |p| > 0 {
        assert Join(p)[0] != '/' by {
          if |p| == 1 {
            assert Join(p) == p[0];
          } else {
            assert Join(p) == p[0] + "/" + Join(p[1..]);
            assert Join(p)[0] == p[0][0];
          }
          assert p[0][0] in p[0];
        }
      }
    }
  }

  /** The text of an absolute path starts with '/'. */
  lemma AbsoluteTextHasSlash(p: Path)
    requires IsAbsolute(p)
    ensures |ToString(p)| > 0 && ToString(p)[0] == '/'
  {
  }
}

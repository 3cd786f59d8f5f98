/**
 * `Files.find(start, maxDepth, predicate)` over a directory tree, as `AbstractAction` and
 * `CommandLineAction` use it: a depth-first walk, in directory-listing order, that yields the
 * regular files whose name the predicate accepts. A directory is opened only while its depth is
 * below `maxDepth`; one that cannot be read ends the walk with an I/O error.
 */
module FileTree {
  import opened Wrappers
  import opened Paths

  datatype Entry =
    | RegularFile(name: string)
    | OtherFile(name: string)
    | Directory(name: string, children: seq<Entry>)
    | UnreadableDirectory(name: string)

  /** What the walk yields before it stops, and whether it stopped at an unreadable directory. */
  datatype Walk = Walk(paths: seq<Path>, failed: bool)

  /** The entry reached from `e` by following the names in `rel`, if any. */
  function Lookup(e: Entry, rel: seq<string>): Option<Entry>
    decreases e
  {
    if rel == [] then Some(e)
    else if !e.Directory? then None
    else LookupIn(e.children, rel)
  }

  function LookupIn(children: seq<Entry>, rel: seq<string>): Option<Entry>
    requires rel != []
    decreases children
  {
    if children == [] then None
    else if children[0].name == rel[0] then Lookup(children[0], rel[1..])
    else LookupIn(children[1..], rel)
  }

  /** Names are path segments and unique within each directory, as in a real file system. */
  predicate WellFormed(e: Entry)
    decreases e
  {
    e.Directory? ==>
      (forall i :: 0 <= i < |e.children| ==> IsName(e.children[i].name))
      && (forall i, j :: 0 <= i < j < |e.children| ==> e.children[i].name != e.children[j].name)
      && forall i :: 0 <= i < |e.children| ==> WellFormed(e.children[i])
  }

  /**
   * The reference for what the walk should yield: `rel` leads from `e` (at depth `depth`) to a
   * regular file that is within the depth bound and whose name is accepted.
   */
  predicate Found(e: Entry, rel: seq<string>, depth: nat, maxDepth: nat, accept: string -> bool) {
    var r := Lookup(e, rel);
    depth + |rel| <= maxDepth && r.Some? && r.value.RegularFile? && accept(r.value.name)
  }

  function Visit(path: Path, e: Entry, depth: nat, maxDepth: nat, accept: string -> bool): Walk
    decreases e, 1
  {
    match e
    case RegularFile(name) => Walk(if accept(name) then [path] else [], false)
    case OtherFile(_) => Walk([], false)
    case Directory(_, children) =>
      if depth < maxDepth then VisitAll(path, children, depth + 1, maxDepth, accept) else Walk([], false)
    case UnreadableDirectory(_) => Walk([], depth < maxDepth)
  }

  function VisitAll(dir: Path, children: seq<Entry>, depth: nat, maxDepth: nat, accept: string -> bool): Walk
    decreases children, 0
  {
    if children == [] then Walk([], false)
    else
      var first := Visit(dir + [children[0].name], children[0], depth, maxDepth, accept);
      if first.failed then first
      else
        var rest := VisitAll(dir, children[1..], depth, maxDepth, accept);
        Walk(first.paths + rest.paths, rest.failed)
  }

  /** Every directory the walk opens is readable. */
  predicate Readable(e: Entry, depth: nat, maxDepth: nat)
    decreases e
  {
    match e
    case Directory(_, children) =>
      depth < maxDepth ==> forall i :: 0 <= i < |children| ==> Readable(children[i], depth + 1, maxDepth)
    case UnreadableDirectory(_) => depth >= maxDepth
    case _ => true
  }

  datatype FindResult = Started(walk: Walk) | StartFailed

  /**
   * `Files.find(start, maxDepth, ...)`: an unreadable start directory makes the call itself throw;
   * deeper ones fail the walk lazily, after the files met before them.
   */
  function Find(start: Path, root: Entry, maxDepth: nat, accept: string -> bool): FindResult {
    if root.UnreadableDirectory? && maxDepth > 0 then StartFailed
    else Started(Visit(start, root, 0, maxDepth, accept))
  }

  // ---------------------------------------------------------------------------
  // The walk against the reference
  // ---------------------------------------------------------------------------

  /** Looking a name up in a directory whose names are unique finds the child of that name. */
  lemma {:induction false} LookupInUnique(children: seq<Entry>, j: nat, rel: seq<string>)
    requires j < |children| && rel != [] && children[j].name == rel[0]
    requires forall a, b :: 0 <= a < b < |children| ==> children[a].name != children[b].name
    ensures LookupIn(children, rel) == Lookup(children[j], rel[1..])
    decreases j
  {
    if j > 0 {
      assert children[0].name != children[j].name;
      LookupInUnique(children[1..], j - 1, rel);
    }
  }

  /** `Found` for a path that starts inside a directory with the given children, at `depth`. */
  predicate FoundIn(children: seq<Entry>, rel: seq<string>, depth: nat, maxDepth: nat, accept: string -> bool) {
    rel != [] && depth + |rel| <= maxDepth + 1
    && var r := LookupIn(children, rel); r.Some? && r.value.RegularFile? && accept(r.value.name)
  }

  /** The walk yields only accepted regular files within the depth bound, each under its start. */
  lemma {:induction false} VisitSound(path: Path, e: Entry, depth: nat, maxDepth: nat, accept: string -> bool)
    requires WellFormed(e) && depth <= maxDepth
    ensures forall p :: p in Visit(path, e, depth, maxDepth, accept).paths ==>
      IsPrefix(path, p) && Found(e, p[|path|..], depth, maxDepth, accept)
    decreases e, 1
  {
    match e
    case RegularFile(name) =>
      forall p | p in Visit(path, e, depth, maxDepth, accept).paths
        ensures IsPrefix(path, p) && Found(e, p[|path|..], depth, maxDepth, accept)
      {
        assert p == path && p[|path|..] == [];
      }
    case OtherFile(_) =>
    case UnreadableDirectory(_) =>
    case Directory(_, children) =>
      if depth < maxDepth {
        VisitAllSound(path, children, depth + 1, maxDepth, accept);
      }
  }

  lemma {:induction false} VisitAllSound(dir: Path, children: seq<Entry>, depth: nat, maxDepth: nat, accept: string -> bool)
    requires forall i :: 0 <= i < |children| ==> WellFormed(children[i])
    requires forall a, b :: 0 <= a < b < |children| ==> children[a].name != children[b].name
    requires depth <= maxDepth
    ensures forall p :: p in VisitAll(dir, children, depth, maxDepth, accept).paths ==>
      IsPrefix(dir, p) && FoundIn(children, p[|dir|..], depth, maxDepth, accept)
    decreases children, 0
  {
    if children != [] {
      var c := children[0];
      var sub := dir + [c.name];
      VisitSound(sub, c, depth, maxDepth, accept);
      var first := Visit(sub, c, depth, maxDepth, accept);
      if !first.failed {
        VisitAllSound(dir, children[1..], depth, maxDepth, accept);
        forall p | p in VisitAll(dir, children, depth, maxDepth, accept).paths
          ensures IsPrefix(dir, p) && FoundIn(children, p[|dir|..], depth, maxDepth, accept)
        {
          var rel := p[|dir|..];
          if p in first.paths {
            assert p[..|dir|] == sub[..|dir|];
            assert rel[0] == c.name;
            assert rel[1..] == p[|sub|..];
          } else {
            LookupInFinds(children[1..], rel);
            var i :| 0 <= i < |children[1..]| && children[1..][i].name == rel[0];
            assert children[i + 1] == children[1..][i];
          }
        }
      } else {
        forall p | p in VisitAll(dir, children, depth, maxDepth, accept).paths
          ensures IsPrefix(dir, p) && FoundIn(children, p[|dir|..], depth, maxDepth, accept)
        {
          var rel := p[|dir|..];
          assert p[..|dir|] == sub[..|dir|];
          assert rel[0] == c.name;
          assert rel[1..] == p[|sub|..];
        }
      }
    }
  }

  /** Where every directory it opens is readable, the walk does not fail. */
  lemma {:induction false} ReadableWalkSucceeds(path: Path, e: Entry, depth: nat, maxDepth: nat, accept: string -> bool)
    requires Readable(e, depth, maxDepth)
    ensures !Visit(path, e, depth, maxDepth, accept).failed
    decreases e, 1
  {
    if e.Directory? && depth < maxDepth {
      ReadableAllSucceeds(path, e.children, depth + 1, maxDepth, accept);
    }
  }

  lemma {:induction false} ReadableAllSucceeds(dir: Path, children: seq<Entry>, depth: nat, maxDepth: nat, accept: string -> bool)
    requires forall i :: 0 <= i < |children| ==> Readable(children[i], depth, maxDepth)
    ensures !VisitAll(dir, children, depth, maxDepth, accept).failed
    decreases children, 0
  {
    if children != [] {
      ReadableWalkSucceeds(dir + [children[0].name], children[0], depth, maxDepth, accept);
      ReadableAllSucceeds(dir, children[1..], depth, maxDepth, accept);
    }
  }

  /** Where every directory it opens is readable, the walk yields every accepted regular file in bound. */
  lemma {:induction false} VisitComplete(path: Path, e: Entry, depth: nat, maxDepth: nat, accept: string -> bool,
                                         rel: seq<string>)
    requires WellFormed(e) && Readable(e, depth, maxDepth) && Found(e, rel, depth, maxDepth, accept)
    ensures path + rel in Visit(path, e, depth, maxDepth, accept).paths
    decreases e, 1
  {
    if rel == [] {
      assert path + rel == path;
    } else {
      var children := e.children;
      LookupInFinds(children, rel);
      var j := FindChild(children, rel[0]);
      LookupInUnique(children, j, rel);
      assert (path + [children[j].name]) + rel[1..] == path + rel;
      VisitAllComplete(path, children, depth + 1, maxDepth, accept, j, rel[1..]);
    }
  }

  lemma {:induction false} VisitAllComplete(dir: Path, children: seq<Entry>, depth: nat, maxDepth: nat,
                                            accept: string -> bool, j: nat, rel: seq<string>)
    requires j < |children|
    requires forall i :: 0 <= i < |children| ==> WellFormed(children[i]) && Readable(children[i], depth, maxDepth)
    requires Found(children[j], rel, depth, maxDepth, accept)
    ensures dir + [children[j].name] + rel in VisitAll(dir, children, depth, maxDepth, accept).paths
    decreases children, 0
  {
    var sub := dir + [children[0].name];
    ReadableWalkSucceeds(sub, children[0], depth, maxDepth, accept);
    if j == 0 {
      VisitComplete(sub, children[0], depth, maxDepth, accept, rel);
    } else {
      assert children[1..][j - 1] == children[j];
      VisitAllComplete(dir, children[1..], depth, maxDepth, accept, j - 1, rel);
    }
  }

  /** The index of the child that a successful lookup went through. */
  function FindChild(children: seq<Entry>, name: string): (j: nat)
    requires exists i :: 0 <= i < |children| && children[i].name == name
    ensures j < |children| && children[j].name == name
  {
    if children[0].name == name then 0
    else
      assert exists i :: 0 <= i < |children[1..]| && children[1..][i].name == name by {
        var i :| 0 <= i < |children| && children[i].name == name;
        assert children[1..][i - 1] == children[i];
      }
      1 + FindChild(children[1..], name)
  }

  /** A lookup that succeeds in a directory goes through a child of that name. */
  lemma {:induction false} LookupInFinds(children: seq<Entry>, rel: seq<string>)
    requires rel != [] && LookupIn(children, rel).Some?
    ensures exists i :: 0 <= i < |children| && children[i].name == rel[0]
    decreases children
  {
    if children[0].name != rel[0] {
      LookupInFinds(children[1..], rel);
      var i :| 0 <= i < |children[1..]| && children[1..][i].name == rel[0];
      assert children[i + 1] == children[1..][i];
    }
  }

  /** A lookup that succeeds follows name segments only. */
  lemma {:induction false} LookupFollowsNames(e: Entry, rel: seq<string>)
    requires WellFormed(e) && Lookup(e, rel).Some?
    ensures forall i :: 0 <= i < |rel| ==> IsName(rel[i])
    decreases e, 1
  {
    if rel != [] {
      LookupInFollowsNames(e.children, rel);
    }
  }

  lemma {:induction false} LookupInFollowsNames(children: seq<Entry>, rel: seq<string>)
    requires forall i :: 0 <= i < |children| ==> WellFormed(children[i]) && IsName(children[i].name)
    requires rel != [] && LookupIn(children, rel).Some?
    ensures forall i :: 0 <= i < |rel| ==> IsName(rel[i])
    decreases children, 0
  {
    if children[0].name == rel[0] {
      LookupFollowsNames(children[0], rel[1..]);
      forall i | 0 < i < |rel| ensures IsName(rel[i]) {
        assert rel[i] == rel[1..][i - 1];
      }
    } else {
      LookupInFollowsNames(children[1..], rel);
    }
  }

  /** With depth 1 from a directory, only its direct children are yielded. */
  lemma DepthOneYieldsChildren(start: Path, root: Entry, accept: string -> bool)
    requires root.Directory? && WellFormed(root)
    ensures forall p :: p in Visit(start, root, 0, 1, accept).paths ==>
      |p| == |start| + 1 && p[..|start|] == start
  {
    VisitSound(start, root, 0, 1, accept);
    forall p | p in Visit(start, root, 0, 1, accept).paths
      ensures |p| == |start| + 1 && p[..|start|] == start
    {
      assert Found(root, p[|start|..], 0, 1, accept);
      assert p[|start|..] != [];
    }
  }
}

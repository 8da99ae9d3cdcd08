/** Which paths a list of changed paths stands for: links, their targets, and all ancestors. */
module Resolve {
  import opened Paths
  import opened IgnoreLists
  import opened Disks

  predicate IsLink(nodes: Nodes, p: Path) {
    p in nodes && nodes[p].Symlink?
  }

  predicate NoLinks(nodes: Nodes, p: Path) {
    forall k :: 0 <= k <= |p| ==> !IsLink(nodes, p[..k])
  }

  /** The shortest prefix that is a link, or the path itself if there is none. */
  ghost predicate FirstLink(nodes: Nodes, path: Path, r: Path) {
    && r <= path
    && (forall k :: 0 <= k < |r| ==> !IsLink(nodes, path[..k]))
    && (IsLink(nodes, r) || r == path)
  }

  lemma FirstLinkUnique(nodes: Nodes, path: Path, r: Path, s: Path)
    requires FirstLink(nodes, path, r) && FirstLink(nodes, path, s)
    ensures r == s
  {
    assert r == path[..|r|] && s == path[..|s|];
  }

  /** The bottom-up search of `resolveSymlinkAncestor` from the prefix of length `m`. */
  function Climb(nodes: Nodes, path: Path, m: nat): Lookup
    requires m <= |path|
  {
    if m == 0 then Found(if path == [] then [] else path[..1])
    else
      match Lstat(nodes, path[..m])
      case Found(q) =>
        if IsLink(nodes, q) then Climb(nodes, path, m - 1)
        else (
          match EvalSymlinks(nodes, path[..m])
          case Found(target) =>
            if target != path[..m] then Climb(nodes, path, m - 1)
            else Found(if m < |path| then path[..m + 1] else path)
          case r => r
        )
      case r => r
  }

  /** The top-down search of `resolveSymlinkAncestorInRoot` below the prefix of length `k`. */
  function Descend(nodes: Nodes, path: Path, k: nat): Lookup
    requires k <= |path|
    decreases |path| - k
  {
    if k == |path| then Found(path)
    else
      match Lstat(nodes, path[..k + 1])
      case Found(q) => if IsLink(nodes, q) then Found(path[..k + 1]) else Descend(nodes, path, k + 1)
      case r => r
  }

  /** `resolveSymlinkAncestor`: climbs while the path is a link or leads through one. */
  method ResolveSymlinkAncestor(nodes: Nodes, path: Path) returns (r: Lookup)
    ensures r == Climb(nodes, path, |path|)
  {
    var newPath, last := path, [];
    while newPath != []
      invariant newPath <= path
      invariant last == if |newPath| < |path| then [path[|newPath|]] else []
      invariant Climb(nodes, path, |path|) == Climb(nodes, path, |newPath|)
      decreases |newPath|
    {
      assert newPath == path[..|newPath|];
      var fi := Lstat(nodes, newPath);
      if !fi.Found? {
        return fi;
      }
      if IsLink(nodes, fi.path) {
        last, newPath := [Base(newPath)], Parent(newPath);
      } else {
        var target := EvalSymlinks(nodes, newPath);
        if !target.Found? {
          return target;
        }
        if target.path != newPath {
          last, newPath := [Base(newPath)], Parent(newPath);
        } else {
          assert newPath + last == if |newPath| < |path| then path[..|newPath| + 1] else path;
          return Found(newPath + last);
        }
      }
    }
    r := Found(newPath + last);
  }

  /** `resolveSymlinkAncestorInRoot`: descends to the first component that is a link. */
  method ResolveSymlinkAncestorInRoot(nodes: Nodes, path: Path) returns (r: Lookup)
    ensures r == Descend(nodes, path, 0)
  {
    var current: Path := [];
    for k := 0 to |path|
      invariant current == path[..k]
      invariant Descend(nodes, path, 0) == Descend(nodes, path, k)
    {
      current := current + [path[k]];
      assert current == path[..k + 1];
      var fi := Lstat(nodes, current);
      if !fi.Found? {
        return fi;
      }
      if IsLink(nodes, fi.path) {
        return Found(current);
      }
    }
    r := Found(path);
  }

  /** Where no prefix is a link, following links goes nowhere else. */
  lemma {:induction false} FollowNoLinks(nodes: Nodes, cur: Path, rest: seq<Name>, links: nat)
    requires NoLinks(nodes, cur + rest) && Plain(rest)
    ensures Follow(nodes, cur, rest, links).Found? ==> Follow(nodes, cur, rest, links) == Found(cur + rest)
    decreases |rest|
  {
    if rest == [] {
      assert cur + rest == cur;
    } else if cur in nodes && nodes[cur].Dir? {
      var next := cur + [rest[0]];
      assert next + rest[1..] == cur + rest;
      assert next == (cur + rest)[..|next|];
      assert !IsLink(nodes, (cur + rest)[..|next|]);
      assert ".." !in rest[1..];
      FollowNoLinks(nodes, next, rest[1..], links);
    }
  }

  lemma EvalNoLinks(nodes: Nodes, p: Path)
    requires NoLinks(nodes, p) && Plain(p) && EvalSymlinks(nodes, p).Found?
    ensures EvalSymlinks(nodes, p) == Found(p)
  {
    assert [] + p == p;
    FollowNoLinks(nodes, [], p, EVAL_LINKS);
  }

  lemma LstatNoLinks(nodes: Nodes, p: Path)
    requires NoLinks(nodes, p) && Plain(p) && Lstat(nodes, p).Found?
    ensures Lstat(nodes, p) == Found(p)
  {
    if p != [] {
      var d := Parent(p);
      forall k | 0 <= k <= |d| ensures !IsLink(nodes, d[..k]) {
        assert d[..k] == p[..k];
      }
      assert [] + d == d;
      FollowNoLinks(nodes, [], d, KERNEL_LINKS);
      assert d + [Base(p)] == p;
    }
  }

  lemma RealHasNoLinks(nodes: Nodes, p: Path)
    requires Real(nodes, p)
    ensures NoLinks(nodes, p)
  {
    forall k | 0 <= k <= |p| ensures !IsLink(nodes, p[..k]) {
      if k < |p| { assert IsDir(nodes, p[..k]); } else { assert p[..k] == p; }
    }
  }

  /** Some prefix of length at most `n` is a link. */
  ghost predicate LinkWithin(nodes: Nodes, path: Path, n: nat)
    requires n <= |path|
  {
    exists k :: 0 <= k <= n && IsLink(nodes, path[..k])
  }

  lemma NoLinkWithin(nodes: Nodes, path: Path, m: nat)
    requires m <= |path| && !LinkWithin(nodes, path, m) && Plain(path)
    ensures NoLinks(nodes, path[..m]) && Plain(path[..m])
  {
    forall k | 0 <= k <= m ensures !IsLink(nodes, path[..m][..k]) {
      assert path[..m][..k] == path[..k];
    }
  }

  /** The climber goes on only when a link lies at or above its position. */
  lemma ClimbsForLink(nodes: Nodes, path: Path, m: nat)
    requires Plain(path) && 0 < m <= |path| && GoesOn(nodes, path, m)
    ensures LinkWithin(nodes, path, m)
  {
    if !LinkWithin(nodes, path, m) {
      NoLinkWithin(nodes, path, m);
      LstatNoLinks(nodes, path[..m]);
      if EvalSymlinks(nodes, path[..m]).Found? {
        EvalNoLinks(nodes, path[..m]);
      }
    }
  }

  /** It stops where nothing above is a link. */
  lemma StopsBelowNoLink(nodes: Nodes, path: Path, m: nat)
    requires Closed(nodes) && m <= |path| && EvalSymlinks(nodes, path[..m]) == Found(path[..m])
    ensures !LinkWithin(nodes, path, m)
  {
    FollowFindsReal(nodes, [], path[..m], EVAL_LINKS);
    RealHasNoLinks(nodes, path[..m]);
    forall k | 0 <= k <= m ensures !IsLink(nodes, path[..k]) {
      assert path[..m][..k] == path[..k];
    }
  }

  lemma NextIsFirstLink(nodes: Nodes, path: Path, m: nat)
    requires m <= |path| && !LinkWithin(nodes, path, m)
    requires m < |path| ==> LinkWithin(nodes, path, m + 1)
    ensures FirstLink(nodes, path, if m < |path| then path[..m + 1] else path)
  {
    if m < |path| {
      var k :| 0 <= k <= m + 1 && IsLink(nodes, path[..k]);
      assert k == m + 1;
    } else {
      assert path[..m] == path;
    }
  }

  /** At this prefix the climber finds a link, or a detour through one. */
  ghost predicate GoesOn(nodes: Nodes, path: Path, m: nat)
    requires 0 < m <= |path|
  {
    && Lstat(nodes, path[..m]).Found?
    && (IsLink(nodes, Lstat(nodes, path[..m]).path)
        || (EvalSymlinks(nodes, path[..m]).Found? && EvalSymlinks(nodes, path[..m]).path != path[..m]))
  }

  lemma ClimbStep(nodes: Nodes, path: Path, m: nat)
    requires 0 < m <= |path| && Climb(nodes, path, m).Found?
    ensures GoesOn(nodes, path, m) ==> Climb(nodes, path, m) == Climb(nodes, path, m - 1)
    ensures !GoesOn(nodes, path, m) ==>
      && EvalSymlinks(nodes, path[..m]) == Found(path[..m])
      && Climb(nodes, path, m) == Found(if m < |path| then path[..m + 1] else path)
  {
  }

  /** A link strictly above the climber's position is what it is looking for. */
  lemma {:induction false} ClimbFindsFirstLink(nodes: Nodes, path: Path, m: nat, r: Path)
    requires Closed(nodes) && Plain(path) && m <= |path| && Climb(nodes, path, m) == Found(r)
    requires m < |path| ==> LinkWithin(nodes, path, m + 1)
    ensures FirstLink(nodes, path, r)
  {
    hide EvalSymlinks, Lstat, GoesOn;
    if m == 0 {
      assert path[..0] == [] && !LinkWithin(nodes, path, 0);
      assert r == if 0 < |path| then path[..1] else path;
      NextIsFirstLink(nodes, path, 0);
    } else {
      ClimbStep(nodes, path, m);
      if GoesOn(nodes, path, m) {
        ClimbsForLink(nodes, path, m);
        ClimbFindsFirstLink(nodes, path, m - 1, r);
      } else {
        StopsBelowNoLink(nodes, path, m);
        NextIsFirstLink(nodes, path, m);
      }
    }
  }

  /** A path that exists under its own name is its own ancestor, link or not. */
  lemma ClimbStays(nodes: Nodes, path: Path)
    requires Closed(nodes) && Plain(path) && path in nodes
    ensures Climb(nodes, path, |path|) == Found(path)
  {
    assert path[..|path|] == path;
    ClosedLiteral(nodes, path);
    PlaceLiteral(nodes, path);
    if path != [] {
      if !nodes[path].Symlink? {
        StatLiteral(nodes, path);
      } else if |path| > 1 {
        var d := path[..|path| - 1];
        assert d == Parent(path);
        ClosedLiteral(nodes, d);
        PlaceLiteral(nodes, d);
        StatLiteral(nodes, d);
      }
    }
  }

  lemma {:induction false} DescendFindsFirstLink(nodes: Nodes, path: Path, r: Path, k: nat)
    requires Closed(nodes) && Plain(path) && FirstLink(nodes, path, r) && r in nodes && k <= |r|
    requires k == |r| ==> r == path && !IsLink(nodes, r)
    ensures Descend(nodes, path, k) == Found(r)
    decreases |r| - k
  {
    if k < |r| {
      var here := path[..k + 1];
      assert here == r[..k + 1];
      ClosedPrefix(nodes, r, k + 1);
      ClosedLiteral(nodes, here);
      PlaceLiteral(nodes, here);
      if k + 1 < |r| || !IsLink(nodes, r) {
        if k + 1 == |r| { assert here == r; }
        DescendFindsFirstLink(nodes, path, r, k + 1);
      } else {
        assert here == r;
      }
    }
  }

  /**
   * The two searches agree: whenever the bottom-up one succeeds, both return the shortest prefix
   * that is a link, or the path itself if there is none, and nothing else is that.
   */
  lemma SearchesAgree(nodes: Nodes, path: Path)
    requires Closed(nodes) && Plain(path) && Climb(nodes, path, |path|).Found?
    ensures Descend(nodes, path, 0) == Climb(nodes, path, |path|)
    ensures forall r :: FirstLink(nodes, path, r) <==> r == Climb(nodes, path, |path|).path
  {
    var r := Climb(nodes, path, |path|).path;
    ClimbFindsFirstLink(nodes, path, |path|, r);
    if !IsLink(nodes, r) && path != [] {
      FoundLeafExists(nodes, path);
    }
    if r == [] {
      assert !IsLink(nodes, ROOT);
    }
    DescendFindsFirstLink(nodes, path, r, 0);
    forall s | FirstLink(nodes, path, s) ensures s == r {
      FirstLinkUnique(nodes, path, r, s);
    }
  }

  /** What is found behind a plain name is in a directory that is found. */
  lemma {:induction false} FollowParent(nodes: Nodes, cur: Path, rest: seq<Name>, c: Name, links: nat)
    requires c != ".." && Follow(nodes, cur, rest + [c], links).Found?
    ensures var d := Follow(nodes, cur, rest, links);
      d.Found? && IsDir(nodes, d.path) && d.path + [c] in nodes
    decreases links, |rest|
  {
    if rest == [] {
      assert rest + [c] == [c];
    } else {
      assert (rest + [c])[1..] == rest[1..] + [c];
      if rest[0] == ".." {
        FollowParent(nodes, Parent(cur), rest[1..], c, links);
      } else {
        var next := cur + [rest[0]];
        if !nodes[next].Symlink? {
          FollowParent(nodes, next, rest[1..], c, links);
        } else {
          var t := nodes[next].target;
          assert t.parts + (rest + [c])[1..] == t.parts + rest[1..] + [c];
          FollowParent(nodes, if t.absolute then [] else cur, t.parts + rest[1..], c, links - 1);
        }
      }
    }
  }

  /** A name that is no link is found where its directory is, also by who follows more links. */
  lemma {:induction false} FollowChild(nodes: Nodes, cur: Path, rest: seq<Name>, c: Name, links: nat, more: nat)
    requires c != ".." && links <= more && Follow(nodes, cur, rest, links).Found?
    requires var d := Follow(nodes, cur, rest, links).path;
      IsDir(nodes, d) && d + [c] in nodes && !nodes[d + [c]].Symlink?
    ensures Follow(nodes, cur, rest + [c], more) == Found(Follow(nodes, cur, rest, links).path + [c])
    decreases links, |rest|
  {
    if rest == [] {
      assert rest + [c] == [c] && [c][1..] == [];
      assert Follow(nodes, cur + [c], [], more) == Found(cur + [c]);
    } else {
      assert (rest + [c])[1..] == rest[1..] + [c];
      if rest[0] == ".." {
        FollowChild(nodes, Parent(cur), rest[1..], c, links, more);
      } else {
        var next := cur + [rest[0]];
        if !nodes[next].Symlink? {
          FollowChild(nodes, next, rest[1..], c, links, more);
        } else {
          var t := nodes[next].target;
          assert t.parts + (rest + [c])[1..] == t.parts + rest[1..] + [c];
          FollowChild(nodes, if t.absolute then [] else cur, t.parts + rest[1..], c, links - 1, more - 1);
        }
      }
    }
  }

  /** The directory of a name that exists does so as well. */
  lemma ParentExists(nodes: Nodes, p: Path)
    requires Plain(p) && p != [] && Lstat(nodes, p).Found?
    ensures Parent(p) == [] || Lstat(nodes, Parent(p)).Found?
  {
    var d := Parent(p);
    if d != [] {
      assert Base(d) in p;
      assert d == Parent(d) + [Base(d)];
      FollowParent(nodes, [], Parent(d), Base(d), KERNEL_LINKS);
    }
  }

  /** A name that exists and is no link is found by following the links above it. */
  lemma ExistsEvaluates(nodes: Nodes, p: Path)
    requires ROOT in nodes && Plain(p) && Lstat(nodes, p).Found? && !IsLink(nodes, Lstat(nodes, p).path)
    ensures EvalSymlinks(nodes, p).Found?
  {
    if p != [] {
      assert Base(p) in p;
      assert p == Parent(p) + [Base(p)];
      FollowChild(nodes, [], Parent(p), Base(p), KERNEL_LINKS, EVAL_LINKS);
    }
  }

  lemma {:induction false} ClimbSucceeds(nodes: Nodes, path: Path, m: nat)
    requires Closed(nodes) && Plain(path) && m <= |path|
    ensures Climb(nodes, path, m).Found? <==> m == 0 || Lstat(nodes, path[..m]).Found?
  {
    hide EvalSymlinks, Lstat;
    if m > 0 && Lstat(nodes, path[..m]).Found? {
      assert Parent(path[..m]) == path[..m - 1];
      ParentExists(nodes, path[..m]);
      ClimbSucceeds(nodes, path, m - 1);
      if !IsLink(nodes, Lstat(nodes, path[..m]).path) {
        ExistsEvaluates(nodes, path[..m]);
      }
    }
  }

  /** Without a link on the way, the top-down search succeeds only for a path that exists. */
  lemma {:induction false} DescendNeedsPath(nodes: Nodes, path: Path, k: nat)
    requires Closed(nodes) && Plain(path) && k <= |path| && NoLinks(nodes, path) && Descend(nodes, path, k).Found?
    ensures k < |path| ==> Lstat(nodes, path).Found?
    decreases |path| - k
  {
    if k < |path| {
      assert path[..|path|] == path;
      assert !LinkWithin(nodes, path, k + 1);
      NoLinkWithin(nodes, path, k + 1);
      LstatNoLinks(nodes, path[..k + 1]);
      DescendNeedsPath(nodes, path, k + 1);
    }
  }

  /**
   * When the searches succeed: the bottom-up one exactly for a path that exists, the top-down one also
   * for one that does not, if a link lies above it.
   */
  lemma SearchesSucceed(nodes: Nodes, path: Path)
    requires Closed(nodes) && Plain(path)
    ensures Climb(nodes, path, |path|).Found? <==> path == [] || Lstat(nodes, path).Found?
    ensures Descend(nodes, path, 0).Found? <==> Climb(nodes, path, |path|).Found? || LinkWithin(nodes, path, |path|)
  {
    assert path[..|path|] == path;
    ClimbSucceeds(nodes, path, |path|);
    if Climb(nodes, path, |path|).Found? {
      SearchesAgree(nodes, path);
    }
    if LinkWithin(nodes, path, |path|) {
      var k := FirstOfLinks(nodes, path, |path|);
      assert FirstLink(nodes, path, path[..k]) by {
        forall j | 0 <= j < k ensures !IsLink(nodes, path[..j]) {
        }
      }
      DescendFindsFirstLink(nodes, path, path[..k], 0);
    } else if Descend(nodes, path, 0).Found? {
      NoLinkWithin(nodes, path, |path|);
      DescendNeedsPath(nodes, path, 0);
    }
  }

  lemma {:induction false} FirstOfLinks(nodes: Nodes, path: Path, n: nat) returns (k: nat)
    requires n <= |path| && LinkWithin(nodes, path, n)
    ensures k <= n && IsLink(nodes, path[..k]) && forall j :: 0 <= j < k ==> !IsLink(nodes, path[..j])
  {
    if n > 0 && LinkWithin(nodes, path, n - 1) {
      k := FirstOfLinks(nodes, path, n - 1);
    } else {
      k := n;
    }
  }

  /** If the search ends at the path itself and that is no link, the path exists. */
  lemma FoundLeafExists(nodes: Nodes, path: Path)
    requires Closed(nodes) && Plain(path) && path != []
    requires Climb(nodes, path, |path|).Found? && !IsLink(nodes, Climb(nodes, path, |path|).path)
    ensures path in nodes
  {
    hide Plain, Climb;
    var m := |path|;
    assert path[..m] == path;
    ClimbStep(nodes, path, m);
    if GoesOn(nodes, path, m) {
      ClimbFindsFirstLink(nodes, path, m, Climb(nodes, path, m).path);
      ClimbsForLink(nodes, path, m);
    } else {
      FollowFindsReal(nodes, [], path, EVAL_LINKS);
    }
  }

  /** What one path contributes: its first link, and its real target if that is not ignored. */
  ghost predicate Contributes(nodes: Nodes, ign: IgnoreList, f: Path, p: Path) {
    && f !in ign
    && Climb(nodes, f, |f|).Found?
    && (p == Climb(nodes, f, |f|).path
        || (EvalSymlinks(nodes, f) == Found(p) && !Ignored(ign, p)))
  }

  /** A path whose evaluation fails for another reason than absence. */
  ghost predicate Stops(nodes: Nodes, ign: IgnoreList, f: Path) {
    f !in ign && Climb(nodes, f, |f|).Found? && EvalSymlinks(nodes, f).Broken?
  }

  ghost predicate Contributed(nodes: Nodes, ign: IgnoreList, paths: seq<Path>, p: Path) {
    exists f :: f in paths && Contributes(nodes, ign, f, p)
  }

  /** The path lies at or above something that one of the paths contributes. */
  ghost predicate Reached(nodes: Nodes, ign: IgnoreList, paths: seq<Path>, q: Path) {
    exists p :: Contributed(nodes, ign, paths, p) && q <= p
  }

  lemma ContributedNext(nodes: Nodes, ign: IgnoreList, paths: seq<Path>, i: nat, p: Path)
    requires i < |paths|
    ensures Contributed(nodes, ign, paths[..i + 1], p)
       <==> Contributed(nodes, ign, paths[..i], p) || Contributes(nodes, ign, paths[i], p)
  {
    assert paths[..i + 1] == paths[..i] + [paths[i]];
    assert paths[i] in paths[..i + 1];
  }

  lemma ContributedNextAll(nodes: Nodes, ign: IgnoreList, paths: seq<Path>, i: nat)
    requires i < |paths|
    ensures forall p ::
      Contributed(nodes, ign, paths[..i + 1], p)
      <==> Contributed(nodes, ign, paths[..i], p) || Contributes(nodes, ign, paths[i], p)
  {
    forall p ensures Contributed(nodes, ign, paths[..i + 1], p)
       <==> Contributed(nodes, ign, paths[..i], p) || Contributes(nodes, ign, paths[i], p)
    {
      ContributedNext(nodes, ign, paths, i, p);
    }
  }

  /** Appends a path that the set does not hold yet. */
  method AddOnce(paths: seq<Path>, fileSet: set<Path>, p: Path) returns (more: seq<Path>, after: set<Path>)
    requires Distinct(paths) && forall q :: q in paths <==> q in fileSet
    ensures Distinct(more) && after == fileSet + {p} && forall q :: q in more <==> q in after
  {
    more := if p in fileSet then paths else paths + [p];
    after := fileSet + {p};
  }

  ghost predicate AtOrAbove(files: seq<Path>, q: Path) {
    exists f :: f in files && q <= f
  }

  lemma AtOrAboveNext(files: seq<Path>, i: nat, q: Path)
    requires i < |files|
    ensures AtOrAbove(files[..i + 1], q) <==> AtOrAbove(files[..i], q) || q <= files[i]
  {
    assert files[..i + 1] == files[..i] + [files[i]];
    if AtOrAbove(files[..i], q) {
      var f :| f in files[..i] && q <= f;
      assert f in files[..i + 1];
    }
    if q <= files[i] {
      assert files[i] in files[..i + 1];
    }
    if AtOrAbove(files[..i + 1], q) {
      var f :| f in files[..i + 1] && q <= f;
      assert f in files[..i] || f == files[i];
    }
  }

  /** `filesWithParentDirs`: the paths and all their ancestors, in the order of a set. */
  method FilesWithParentDirs(files: seq<Path>) returns (newFiles: seq<Path>)
    ensures Distinct(newFiles)
    ensures forall q :: q in newFiles <==> AtOrAbove(files, q)
  {
    var filesSet: set<Path> := {};
    for i := 0 to |files|
      invariant forall q :: q in filesSet <==> AtOrAbove(files[..i], q)
    {
      var file := files[i];
      var parents := ParentDirectories(file);
      ghost var before := filesSet;
      filesSet := filesSet + {file} + (set dir | dir in parents);
      forall q ensures q in filesSet <==> AtOrAbove(files[..i + 1], q) {
        if q <= file && q != file {
          assert q == parents[|q|];
        }
        AtOrAboveNext(files, i, q);
        assert q in filesSet <==> q in before || q <= file;
      }
    }
    assert files[..|files|] == files;
    newFiles := [];
    var todo := filesSet;
    while todo != {}
      invariant Distinct(newFiles) && todo <= filesSet
      invariant forall q :: q in filesSet <==> q in newFiles || q in todo
      invariant forall q :: q in newFiles ==> q !in todo
    {
      var file :| file in todo;
      newFiles, todo := newFiles + [file], todo - {file};
    }
  }

  /**
   * `ResolvePaths`. An evaluation error other than absence ends the loop without an error of its
   * own: what was collected so far is returned, without the parents.
   */
  method ResolvePaths(nodes: Nodes, ign: IgnoreList, paths: seq<Path>) returns (out: seq<Path>)
    ensures Distinct(out)
    ensures (forall f :: f in paths ==> !Stops(nodes, ign, f)) ==>
      forall q :: q in out <==> Reached(nodes, ign, paths, q)
    ensures (exists f :: f in paths && Stops(nodes, ign, f)) ==>
      exists i :: 0 <= i < |paths| && Stops(nodes, ign, paths[i])
        && (forall k :: 0 <= k < i ==> !Stops(nodes, ign, paths[k]))
        && forall q :: q in out <==> Contributed(nodes, ign, paths[..i + 1], q)
  {
    hide EvalSymlinks, Climb;
    var fileSet: set<Path> := {};
    var pathsToAdd := [];
    for i := 0 to |paths|
      invariant Distinct(pathsToAdd) && forall q :: q in pathsToAdd <==> q in fileSet
      invariant forall q :: q in fileSet <==> Contributed(nodes, ign, paths[..i], q)
      invariant forall k :: 0 <= k < i ==> !Stops(nodes, ign, paths[k])
    {
      var f := paths[i];
      ContributedNextAll(nodes, ign, paths, i);
      if f in ign {
        continue;
      }
      var link := ResolveSymlinkAncestor(nodes, f);
      if !link.Found? {
        continue;
      }
      pathsToAdd, fileSet := AddOnce(pathsToAdd, fileSet, link.path);
      var evaled := EvalSymlinks(nodes, f);
      if !evaled.Found? {
        if !evaled.Missing? {
          assert Stops(nodes, ign, paths[i]);
          return pathsToAdd;
        }
        continue;
      }
      if Ignored(ign, evaled.path) {
        continue;
      }
      pathsToAdd, fileSet := AddOnce(pathsToAdd, fileSet, evaled.path);
    }
    assert paths[..|paths|] == paths;
    out := FilesWithParentDirs(pathsToAdd);
    forall q ensures q in out <==> Reached(nodes, ign, paths, q) {
    }
  }
}

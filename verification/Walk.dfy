/** Walking the disk: which recorded paths are gone, and which paths on it have changed. */
module Walk {
  import opened Paths
  import opened IgnoreLists
  import opened Disks
  import opened Changesets
  import opened LayeredMaps

  /** The paths that a scan looks at. */
  ghost function Scanned(d: Disk, ign: IgnoreList): set<Path> {
    set p | p in d.nodes && !Ignored(ign, p)
  }

  /** The path is new, or its hash is not the recorded one. */
  ghost predicate Changed(image: Hashes, d: Disk, p: Path) {
    !(p in image && p in d.digest && image[p] == d.digest[p])
  }

  /** Hashes that were computed in this layer are those of the disk. */
  ghost predicate CacheFresh(cache: Hashes, d: Disk) {
    forall p :: p in cache ==> p in d.digest && cache[p] == d.digest[p]
  }

  /** No directory on the way down is an ignore entry. */
  ghost predicate Clear(ign: IgnoreList, path: Path) {
    forall k :: 0 <= k < |path| ==> path[..k] !in ign
  }

  /** What a walk from this path looks at. */
  ghost function Zone(d: Disk, ign: IgnoreList, path: Path): set<Path> {
    set p | p in d.nodes && path <= p && !Ignored(ign, p)
  }

  /** Those of the paths that a walk reports: all of them, or the changed ones. */
  ghost function Hits(check: bool, image: Hashes, d: Disk, paths: set<Path>): set<Path> {
    set p | p in paths && (check ==> Changed(image, d, p))
  }

  function Elements(s: seq<Path>): set<Path> {
    set p | p in s
  }

  lemma ClearNotListed(ign: IgnoreList, path: Path)
    requires Proper(ign) && Clear(ign, path)
    ensures Ignored(ign, path) <==> path in ign
  {
    if Ignored(ign, path) {
      var e :| e in ign && HasFilepathPrefix(path, e);
      assert e == path[..|e|];
      if |e| == |path| { assert e == path; }
    }
    if path in ign {
      assert path in ign && HasFilepathPrefix(path, path);
    }
  }

  lemma ListedHidesAll(ign: IgnoreList, path: Path, p: Path)
    requires Proper(ign) && path in ign && path <= p
    ensures Ignored(ign, p)
  {
    assert HasFilepathPrefix(p, path);
  }

  function Children(nodes: Nodes, path: Path): set<Path> {
    set c | c in nodes && c != [] && Parent(c) == path
  }

  /** The walk of a directory is the directory itself and the walks of its children. */
  lemma ZoneSplits(d: Disk, ign: IgnoreList, path: Path, covered: set<Path>)
    requires Closed(d.nodes) && path in covered && covered <= Zone(d, ign, path)
    requires forall c :: c in Children(d.nodes, path) ==> Zone(d, ign, c) <= covered
    ensures covered == Zone(d, ign, path)
  {
    forall p | p in Zone(d, ign, path) && p != path ensures p in covered {
      var c := p[..|path| + 1];
      ClosedPrefix(d.nodes, p, |path| + 1);
      assert Parent(c) == path;
      assert c in Children(d.nodes, path);
      assert p in Zone(d, ign, c);
    }
  }

  lemma ZoneBelow(d: Disk, ign: IgnoreList, path: Path, c: Path)
    requires path <= c
    ensures Zone(d, ign, c) <= Zone(d, ign, path)
  {
    forall p | p in Zone(d, ign, c) ensures p in Zone(d, ign, path) {
      PrefixTransitive(path, c, p);
    }
  }

  lemma ListedZoneEmpty(d: Disk, ign: IgnoreList, path: Path)
    requires Proper(ign) && path in ign
    ensures Zone(d, ign, path) == {}
  {
    forall p | path <= p ensures p !in Zone(d, ign, path) {
      ListedHidesAll(ign, path, p);
    }
  }

  lemma ChildClear(nodes: Nodes, ign: IgnoreList, path: Path, c: Path)
    requires c in Children(nodes, path) && Clear(ign, path) && path !in ign
    ensures Clear(ign, c) && path <= c && path != c && |c| == |path| + 1
  {
    assert c[..|path|] == path;
    forall k | 0 <= k < |c| ensures c[..k] !in ign {
      if k < |path| { assert c[..k] == path[..k]; } else { assert c[..k] == path; }
    }
  }

  /** What a walk over the paths of a zone adds to the found paths and takes from the recorded ones. */
  ghost predicate Report(check: bool, image: Hashes, d: Disk, zone: set<Path>,
                         found: seq<Path>, deleted: set<Path>, found': seq<Path>, deleted': set<Path>)
  {
    && Elements(found') == Elements(found) + Hits(check, image, d, zone)
    && deleted' == deleted - zone
  }

  lemma ReportsJoin(check: bool, image: Hashes, d: Disk, s: set<Path>, t: set<Path>,
                    f0: seq<Path>, d0: set<Path>, f1: seq<Path>, d1: set<Path>, f2: seq<Path>, d2: set<Path>)
    requires Report(check, image, d, s, f0, d0, f1, d1) && Report(check, image, d, t, f1, d1, f2, d2)
    ensures Report(check, image, d, s + t, f0, d0, f2, d2)
  {
    assert Hits(check, image, d, s + t) == Hits(check, image, d, s) + Hits(check, image, d, t);
  }

  lemma NothingReported(check: bool, image: Hashes, d: Disk, found: seq<Path>, deleted: set<Path>)
    ensures Report(check, image, d, {}, found, deleted, found, deleted)
  {
  }

  /** The zones of all children that have been walked are covered, and nothing at or below the others. */
  ghost predicate Covering(d: Disk, ign: IgnoreList, path: Path, kids: set<Path>, covered: set<Path>) {
    && kids <= Children(d.nodes, path)
    && path in covered && covered <= Zone(d, ign, path)
    && (forall c :: c in Children(d.nodes, path) && c !in kids ==> Zone(d, ign, c) <= covered)
    && (forall c, q :: c in kids && q in covered ==> !(c <= q))
  }

  /** The hasher succeeds on all of the paths. */
  ghost predicate AllHashed(d: Disk, paths: set<Path>) {
    forall p :: p in paths ==> p in d.digest
  }

  /**
   * A walk that ends early: it has seen some paths, all of them hashable, when it comes to one that is
   * not. It was above that path, and has not been below it.
   */
  ghost predicate Stopped(d: Disk, ign: IgnoreList, path: Path, seen: set<Path>, stop: Path) {
    && stop in Zone(d, ign, path) && stop !in d.digest
    && seen <= Zone(d, ign, path) && AllHashed(d, seen)
    && (forall q :: path <= q < stop ==> q in seen)
    && (forall q :: q in seen ==> !(stop <= q))
  }

  /** What such a walk reports: what it has seen, and that the path it stopped at is not deleted. */
  ghost predicate Aborted(image: Hashes, d: Disk, ign: IgnoreList, path: Path, seen: set<Path>, stop: Path,
                          found: seq<Path>, deleted: set<Path>, found': seq<Path>, deleted': set<Path>)
  {
    && Stopped(d, ign, path, seen, stop)
    && Elements(found') == Elements(found) + Hits(true, image, d, seen)
    && deleted' == deleted - seen - {stop}
  }

  lemma AbortedHere(image: Hashes, d: Disk, ign: IgnoreList, path: Path, found: seq<Path>, deleted: set<Path>)
    requires path in Zone(d, ign, path) && path !in d.digest
    ensures Aborted(image, d, ign, path, {}, path, found, deleted, found, deleted - {path})
  {
  }

  /** A walk that stops below a child has seen what was covered before, and what it saw there. */
  lemma AbortedBelow(image: Hashes, d: Disk, ign: IgnoreList, path: Path, kids: set<Path>, covered: set<Path>, c: Path,
                     seen: set<Path>, stop: Path, f0: seq<Path>, d0: set<Path>, f1: seq<Path>, d1: set<Path>,
                     f2: seq<Path>, d2: set<Path>)
    requires Covering(d, ign, path, kids, covered) && c in kids && path <= c && |c| == |path| + 1
    requires AllHashed(d, covered) && Report(true, image, d, covered, f0, d0, f1, d1)
    requires Aborted(image, d, ign, c, seen, stop, f1, d1, f2, d2)
    ensures Aborted(image, d, ign, path, covered + seen, stop, f0, d0, f2, d2)
  {
    ZoneBelow(d, ign, path, c);
    assert Hits(true, image, d, covered + seen) == Hits(true, image, d, covered) + Hits(true, image, d, seen);
    forall q | path <= q < stop ensures q in covered + seen {
      if q != path {
        PrefixesCompare(c, q, stop);
        assert |q| > |path|;
        assert c <= q;
      }
    }
    forall q | q in covered ensures !(stop <= q) {
      if stop <= q {
        PrefixTransitive(c, stop, q);
      }
    }
  }

  lemma CoveringNext(d: Disk, ign: IgnoreList, path: Path, kids: set<Path>, covered: set<Path>, c: Path)
    requires Covering(d, ign, path, kids, covered) && c in kids && path <= c
    ensures Covering(d, ign, path, kids - {c}, covered + Zone(d, ign, c))
  {
    ZoneBelow(d, ign, path, c);
    forall k, q | k in kids - {c} && q in Zone(d, ign, c) ensures !(k <= q) {
      SiblingsApart(d.nodes, path, k, c, q);
    }
  }

  lemma SiblingsApart(nodes: Nodes, path: Path, k: Path, c: Path, q: Path)
    requires k in Children(nodes, path) && c in Children(nodes, path) && k != c && c <= q
    ensures !(k <= q)
  {
    assert c == path + [Base(c)] && k == path + [Base(k)];
    if k <= q {
      PrefixesCompare(k, c, q);
    }
  }

  /** The walk's callback for a path that is not ignored. */
  method LookAt(l: LayeredMap, check: bool, d: Disk, path: Path, found: seq<Path>, deleted: set<Path>)
    returns (found': seq<Path>, deleted': set<Path>, go: bool)
    requires CacheFresh(l.layerHashCache, d)
    modifies l`layerHashCache
    ensures CacheFresh(l.layerHashCache, d)
    ensures go ==> Report(check, l.currentImage, d, {path}, found, deleted, found', deleted')
    ensures go <==> check ==> path in d.digest
    ensures !go ==> found' == found && deleted' == deleted - {path}
  {
    found', deleted', go := found, deleted - {path}, true;
    var isChanged := true;
    if check {
      go, isChanged := l.CheckFileChange(d, path);
      if !go {
        return;
      }
    }
    if isChanged {
      found' := found' + [path];
    }
  }

  /**
   * One step of the walk and everything below it. A hash that cannot be computed ends the whole
   * walk, with what it has seen by then.
   */
  method Visit(l: LayeredMap, check: bool, d: Disk, ign: IgnoreList, path: Path,
               found: seq<Path>, deleted: set<Path>, ghost depth: nat)
    returns (found': seq<Path>, deleted': set<Path>, go: bool, ghost seen: set<Path>, ghost stop: Path)
    requires Proper(ign) && Sane(d) && path in d.nodes && Clear(ign, path)
    requires forall p :: p in d.nodes ==> |p| <= depth
    requires CacheFresh(l.layerHashCache, d)
    modifies l`layerHashCache
    ensures CacheFresh(l.layerHashCache, d)
    ensures go ==> Report(check, l.currentImage, d, Zone(d, ign, path), found, deleted, found', deleted')
    ensures go <==> check ==> AllHashed(d, Zone(d, ign, path))
    ensures !go ==> Aborted(l.currentImage, d, ign, path, seen, stop, found, deleted, found', deleted')
    decreases depth - |path|
  {
    hide Report, CacheFresh, Ignored, Aborted, Covering, AllHashed, Zone, Clear, Sane, Children;
    found', deleted', go := found, deleted, true;
    seen, stop := {}, path;
    WalkStart(d, ign, path);
    if path in ign {
      NothingReported(check, l.currentImage, d, found, deleted);
      return;
    }
    found', deleted', go := LookAt(l, check, d, path, found, deleted);
    if !go {
      AbortedHere(l.currentImage, d, ign, path, found, deleted);
      return;
    }
    var kids := Children(d.nodes, path);
    ghost var covered := {path};
    HashedOne(d, path);
    while kids != {}
      invariant CacheFresh(l.layerHashCache, d)
      invariant Covering(d, ign, path, kids, covered)
      invariant Report(check, l.currentImage, d, covered, found, deleted, found', deleted')
      invariant check ==> AllHashed(d, covered)
      decreases kids
    {
      var c :| c in kids;
      NextKid(d, ign, path, kids, covered, c);
      ghost var f1, d1 := found', deleted';
      found', deleted', go, seen, stop := Visit(l, check, d, ign, c, found', deleted', depth);
      if !go {
        AbortedBelow(l.currentImage, d, ign, path, kids, covered, c, seen, stop, found, deleted, f1, d1, found', deleted');
        seen := covered + seen;
        AbortedUnhashed(l.currentImage, d, ign, path, seen, stop, found, deleted, found', deleted');
        return;
      }
      ReportsJoin(check, l.currentImage, d, covered, Zone(d, ign, c), found, deleted, f1, d1, found', deleted');
      HashedBoth(d, covered, Zone(d, ign, c));
      covered := covered + Zone(d, ign, c);
      kids := kids - {c};
    }
    CoveringDone(d, ign, path, covered);
    go := true;
  }

  /** An ignored path has nothing to walk; any other starts with itself covered. */
  lemma WalkStart(d: Disk, ign: IgnoreList, path: Path)
    requires Proper(ign) && Sane(d) && path in d.nodes && Clear(ign, path)
    ensures path in ign ==> Zone(d, ign, path) == {} && AllHashed(d, Zone(d, ign, path))
    ensures path !in ign ==> path in Zone(d, ign, path) && Covering(d, ign, path, Children(d.nodes, path), {path})
    ensures path !in ign && path !in d.digest ==> !AllHashed(d, Zone(d, ign, path))
  {
    ClearNotListed(ign, path);
    if path in ign {
      ListedZoneEmpty(d, ign, path);
    }
  }

  lemma HashedOne(d: Disk, path: Path)
    ensures path in d.digest ==> AllHashed(d, {path})
  {
  }

  lemma HashedBoth(d: Disk, s: set<Path>, t: set<Path>)
    ensures AllHashed(d, s) && AllHashed(d, t) ==> AllHashed(d, s + t)
  {
  }

  lemma AbortedUnhashed(image: Hashes, d: Disk, ign: IgnoreList, path: Path, seen: set<Path>, stop: Path,
                        found: seq<Path>, deleted: set<Path>, found': seq<Path>, deleted': set<Path>)
    requires Aborted(image, d, ign, path, seen, stop, found, deleted, found', deleted')
    ensures !AllHashed(d, Zone(d, ign, path))
  {
  }

  lemma NextKid(d: Disk, ign: IgnoreList, path: Path, kids: set<Path>, covered: set<Path>, c: Path)
    requires Covering(d, ign, path, kids, covered) && c in kids && Clear(ign, path) && path !in ign
    ensures c in d.nodes && Clear(ign, c) && path <= c && |c| == |path| + 1
    ensures Covering(d, ign, path, kids - {c}, covered + Zone(d, ign, c))
  {
    ChildClear(d.nodes, ign, path, c);
    CoveringNext(d, ign, path, kids, covered, c);
  }

  lemma CoveringDone(d: Disk, ign: IgnoreList, path: Path, covered: set<Path>)
    requires Sane(d) && Covering(d, ign, path, {}, covered)
    ensures covered == Zone(d, ign, path)
  {
    ZoneSplits(d, ign, path, covered);
  }
}

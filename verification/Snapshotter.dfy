/** Taking snapshots: from the record of the last image and the disk to a layer and a new record. */
module Snapshotters {
  import opened Options
  import opened Paths
  import opened IgnoreLists
  import opened Disks
  import opened Extraction
  import opened Changesets
  import opened LayeredMaps
  import opened Walk
  import opened TarWriter
  import opened Sorting
  import opened PathStrings
  import opened TarNames
  import LayerMeaning
  import Resolve
  import RoundTrip

  /** A record knows no ignored path, and with a path it knows its directory. */
  ghost predicate Record(ign: IgnoreList, image: Hashes) {
    forall p :: p in image ==> !Ignored(ign, p) && Plain(p) && (p != [] ==> Parent(p) in image)
  }

  /** The hashes of everything a scan can see. */
  ghost function Digests(d: Disk, ign: IgnoreList): Hashes
    requires Hashable(d, ign)
  {
    map p | p in Scanned(d, ign) :: d.digest[p]
  }

  /** The hasher succeeds wherever a scan looks. */
  ghost predicate Hashable(d: Disk, ign: IgnoreList) {
    forall p :: p in d.nodes && !Ignored(ign, p) ==> p in d.digest
  }

  /** A layer can tell of the path: it is not ignored nor below a marker, and no marker that deletes the root. */
  ghost predicate Tellable(ign: IgnoreList, p: Path) {
    !Veiled(ign, p) && (IsMarker(p) ==> Whited(p) != ROOT)
  }

  /** The path can be described by a layer: it leads somewhere or nowhere, and to nothing a layer cannot tell of. */
  ghost predicate Describable(d: Disk, ign: IgnoreList, f: Path) {
    && Plain(f) && !EvalSymlinks(d.nodes, f).Broken?
    && forall p :: Resolve.Contributes(d.nodes, ign, f, p) ==> Tellable(ign, p)
  }

  /** No marker file that goes with the path would take anything of the disk away. */
  ghost predicate Unharmful(d: Disk, ign: IgnoreList, f: Path) {
    forall p :: Resolve.Contributes(d.nodes, ign, f, p) ==> Harmless(ign, d.nodes, p)
  }

  /** What the snapshot code takes for granted about the disk. */
  ghost predicate Scannable(ign: IgnoreList, image: Hashes, d: Disk) {
    && Proper(ign) && Sane(d) && Hashable(d, ign)
    && forall p :: p in Scanned(d, ign) && Changed(image, d, p) ==> !EvalSymlinks(d.nodes, p).Broken?
  }

  /** What a layer needs on top of that: nothing below a marker takes part in the change. */
  ghost predicate Tarable(ign: IgnoreList, image: Hashes, d: Disk) {
    && GoneTellable(image, d)
    && forall p :: p in Scanned(d, ign) && Changed(image, d, p) ==> Describable(d, ign, p)
  }

  /** Nothing below a marker is deleted on its own. */
  ghost predicate GoneTellable(image: Hashes, d: Disk) {
    forall w :: w in image && w !in d.nodes && Parent(w) in d.nodes ==> !Marked(Parent(w))
  }

  /** No marker file that takes part in the change would take anything away. */
  ghost predicate ChangesUnharmful(ign: IgnoreList, image: Hashes, d: Disk) {
    forall p :: p in Scanned(d, ign) && Changed(image, d, p) ==> Unharmful(d, ign, p)
  }

  lemma AllScanned(d: Disk, ign: IgnoreList)
    ensures Zone(d, ign, []) == Scanned(d, ign)
  {
  }

  /**
   * `WalkFS`: a walk that hashes ends early exactly if something cannot be hashed. The caller does not
   * learn of it, and what exists but was not seen by then is still among the deleted paths.
   */
  method WalkFS(l: LayeredMap, check: bool, d: Disk, ign: IgnoreList, existing: set<Path>)
    returns (found: seq<Path>, deleted: set<Path>)
    requires Proper(ign) && Sane(d) && CacheFresh(l.layerHashCache, d)
    modifies l`layerHashCache
    ensures CacheFresh(l.layerHashCache, d)
    ensures !check || Hashable(d, ign) ==>
      Report(check, l.currentImage, d, Scanned(d, ign), [], existing, found, deleted)
    ensures check && !Hashable(d, ign) ==>
      exists seen, stop :: Aborted(l.currentImage, d, ign, ROOT, seen, stop, [], existing, found, deleted)
  {
    ghost var depth := Depth(d.nodes.Keys);
    var go;
    ghost var seen, stop;
    found, deleted, go, seen, stop := Visit(l, check, d, ign, [], [], existing, depth);
    AllScanned(d, ign);
    assert AllHashed(d, Scanned(d, ign)) <==> Hashable(d, ign);
  }

  const UNHASHABLE: Disk := Disk(map[[] := Dir(0), ["d"] := Dir(0), ["d", "f"] := File(0, "")],
                                 map[[] := 0, ["d"] := 1, ["d", "f"] := 2],
                                 map[[] := 2, ["d"] := 2, ["d", "f"] := 1],
                                 map[[] := "root", ["d", "f"] := "file"])

  lemma UnhashableSane()
    ensures Sane(UNHASHABLE) && Proper({}) && !Hashable(UNHASHABLE, {})
  {
    var d: Path, f: Path := ["d"], ["d", "f"];
    var nodes := UNHASHABLE.nodes;
    assert nodes.Keys == UNHASHABLE.ino.Keys == UNHASHABLE.nlink.Keys == {[], d, f};
    forall p | p in nodes ensures Plain(p) && (p != [] ==> Parent(p) in nodes && nodes[Parent(p)].Dir?) {
      assert p == [] || p == d || p == f;
      assert Parent(f) == d && Parent(d) == [];
    }
    forall p, q | p in nodes && q in nodes && p != q ensures UNHASHABLE.ino[p] != UNHASHABLE.ino[q] {
      assert p == [] || p == d || p == f;
      assert q == [] || q == d || q == f;
    }
    assert d in nodes && !Ignored({}, d);
  }

  lemma UnhashableStops(image: Hashes, seen: set<Path>, stop: Path, found: seq<Path>, deleted: set<Path>)
    requires Aborted(image, UNHASHABLE, {}, ROOT, seen, stop, [], UNHASHABLE.nodes.Keys, found, deleted)
    ensures deleted == {["d", "f"]}
  {
    var d: Path, f: Path := ["d"], ["d", "f"];
    assert UNHASHABLE.nodes.Keys == {[], d, f};
    assert stop == d;
    assert ROOT <= ROOT < d && d <= f;
    assert ROOT in seen && f !in seen;
  }

  /** A directory that cannot be hashed makes the file in it, which is there and on record, a deleted one. */
  method UnhashableDirectory(l: LayeredMap) returns (found: seq<Path>, deleted: set<Path>)
    requires CacheFresh(l.layerHashCache, UNHASHABLE)
    modifies l`layerHashCache
    ensures deleted == {["d", "f"]} && ["d", "f"] in UNHASHABLE.nodes
  {
    hide Sane, Proper, Hashable, Aborted, Report;
    UnhashableSane();
    found, deleted := WalkFS(l, true, UNHASHABLE, {}, UNHASHABLE.nodes.Keys);
    ghost var seen, stop :| Aborted(l.currentImage, UNHASHABLE, {}, ROOT, seen, stop, [], UNHASHABLE.nodes.Keys, found, deleted);
    UnhashableStops(l.currentImage, seen, stop, found, deleted);
  }

  /** `removeObsoleteWhiteouts`: a deleted path whose directory is deleted too needs no whiteout. */
  method RemoveObsoleteWhiteouts(deleted: set<Path>) returns (whiteouts: seq<Path>)
    ensures forall w :: w in whiteouts <==> w in deleted && Parent(w) !in deleted
    ensures Distinct(whiteouts)
  {
    whiteouts := [];
    var todo := deleted;
    while todo != {}
      invariant todo <= deleted
      invariant forall w :: w in whiteouts <==> w in deleted && w !in todo && Parent(w) !in deleted
      invariant Distinct(whiteouts)
    {
      var path :| path in todo;
      if Parent(path) !in deleted {
        whiteouts := whiteouts + [path];
      }
      todo := todo - {path};
    }
  }

  lemma {:induction false} RootedBelow(p: Path, q: Path)
    requires p <= q
    ensures Rooted(p) <= Rooted(q) && (p != q ==> |Rooted(p)| < |Rooted(q)|)
    decreases |q|
  {
    if p != q {
      var up := q[..|q| - 1];
      assert p <= up;
      RootedBelow(p, up);
      assert Rooted(q) == Rooted(up) + ("/" + q[|q| - 1]);
      assert Rooted(p) == Rooted(up)[..|Rooted(p)|] == Rooted(q)[..|Rooted(p)|];
    }
  }

  /** In the order of their names, a directory comes before what is in it. */
  lemma DirectoriesFirst(sorted: seq<Path>, i: nat, j: nat)
    requires SortedBy(sorted, Text) && i < |sorted| && j < |sorted|
    requires sorted[i] < sorted[j] && Plain(sorted[j])
    ensures i < j
  {
    var p, q := sorted[i], sorted[j];
    RootedBelow(p, q);
    RootedBelow([], q);
    NoParts();
    if p == [] {
      var up := q[..|q| - 1];
      RootedBelow([], up);
      assert q[|q| - 1] in q;
      assert Rooted(q) == Rooted(up) + "/" + q[|q| - 1] && |Rooted(q)| > 1;
      SlashInFront(q);
    }
    assert Text(p) == Text(q)[..|Text(p)|] && |Text(p)| < |Text(q)|;
    StrLeExact(Text(q), Text(p), |Text(p)|);
    assert !StrLe(Text(q), Text(p));
  }

  lemma {:induction false} SlashInFront(p: Path)
    requires p != []
    ensures Rooted(p)[..1] == "/"
    decreases |p|
  {
    NoParts();
    if |p| > 1 {
      SlashInFront(p[..|p| - 1]);
    }
  }

  method SortPaths(ps: seq<Path>) returns (sorted: seq<Path>)
    ensures SortedBy(sorted, Text)
    ensures forall p :: p in sorted <==> p in ps
    ensures |sorted| == |ps| && (Distinct(ps) ==> Distinct(sorted))
  {
    sorted := SortBy(ps, Text);
    SameElements(sorted, ps);
    DistinctOnce(ps);
    DistinctOnce(sorted);
  }

  lemma {:induction false} DistinctOnce(ps: seq<Path>)
    ensures Distinct(ps) <==> forall p :: multiset(ps)[p] <= 1
    decreases |ps|
  {
    if ps != [] {
      var rest, p := ps[..|ps| - 1], ps[|ps| - 1];
      DistinctOnce(rest);
      assert ps == rest + [p];
      assert Distinct(ps) <==> Distinct(rest) && p !in rest;
      assert p in rest <==> multiset(rest)[p] > 0;
      forall x ensures multiset(ps)[x] == multiset(rest)[x] + if x == p then 1 else 0 {
      }
      assert multiset(ps)[p] == multiset(rest)[p] + 1;
    }
  }

  /** Recording the hash of a file on the disk. */
  function Recorded(image: Hashes, d: Disk, files: seq<Path>): Hashes {
    image + map f | f in files && f in d.digest :: d.digest[f]
  }

  lemma RecordedNext(image: Hashes, d: Disk, files: seq<Path>, i: nat)
    requires i < |files| && files[i] in d.digest
    ensures Recorded(image, d, files[..i + 1]) == Recorded(image, d, files[..i])[files[i] := d.digest[files[i]]]
  {
    assert files[..i + 1] == files[..i] + [files[i]];
  }

  lemma RecordedNone(image: Hashes, d: Disk, files: seq<Path>)
    ensures Recorded(image, d, files[..0]) == image
  {
  }

  lemma CachedHash(cache: Hashes, d: Disk, f: Path)
    requires CacheFresh(cache, d) && f in d.digest
    ensures f in cache ==> cache[f] == d.digest[f]
  {
  }

  /** Adds the listed files to the current layer. */
  method AddFiles(l: LayeredMap, d: Disk, files: seq<Path>) returns (ok: bool)
    requires l.Valid() && l.adds != [] && l.deletes[|l.deletes| - 1] == {} && CacheFresh(l.layerHashCache, d)
    requires forall f :: f in files ==> f in d.digest
    modifies l`isCurrentImageValid, l`adds
    ensures ok && l.Valid() && l.adds != [] && |l.adds| == old(|l.adds|)
    ensures l.Image() == Recorded(old(l.Image()), d, files)
  {
    RecordedNone(l.Image(), d, files);
    hide *;
    for i := 0 to |files|
      invariant l.Valid() && |l.adds| == old(|l.adds|)
      invariant l.Image() == Recorded(old(l.Image()), d, files[..i])
    {
      assert files[i] in files;
      CachedHash(l.layerHashCache, d, files[i]);
      RecordedNext(old(l.Image()), d, files, i);
      ok := l.Add(d, files[i]);
      if !ok {
        return;
      }
    }
    assert files[..|files|] == files;
    ok := true;
  }

  /** Deletes the listed paths in the current layer. */
  method AddDeletes(l: LayeredMap, deleted: set<Path>)
    requires l.Valid() && l.adds != []
    modifies l`isCurrentImageValid, l`deletes
    ensures l.Valid() && l.Image() == old(l.Image()) - deleted
  {
    var todo := deleted;
    while todo != {}
      invariant todo <= deleted && l.Valid()
      invariant l.Image() == old(l.Image()) - (deleted - todo)
    {
      var file :| file in todo;
      l.AddDelete(file);
      todo := todo - {file};
    }
  }

  /** The files a layer is to describe: all changed ones, what they lead to, and the directories above, if not ignored. */
  ghost predicate Describes(d: Disk, ign: IgnoreList, changed: set<Path>, files: seq<Path>) {
    && (forall p :: p in changed ==> p in files)
    && (forall f :: f in files ==> f in d.nodes)
    && (forall f :: f in files <==> !Ignored(ign, f) && FromChange(d, ign, changed, f))
  }

  /** What goes with a changed path: itself, and what is found there when links are followed, unless that is ignored. */
  ghost predicate GoesWith(d: Disk, ign: IgnoreList, c: Path, p: Path) {
    p == c || (EvalSymlinks(d.nodes, c) == Found(p) && !Ignored(ign, p))
  }

  /** The path lies at or above something that goes with a changed one. */
  ghost predicate FromChange(d: Disk, ign: IgnoreList, changed: set<Path>, f: Path) {
    exists c, p :: c in changed && GoesWith(d, ign, c, p) && f <= p
  }

  /** The topmost recorded paths that a scan does not find. */
  ghost predicate TopmostGone(image: Hashes, seen: set<Path>, w: Path) {
    w in image && w !in seen && !(Parent(w) in image && Parent(w) !in seen)
  }

  lemma SelfIgnored(ign: IgnoreList, p: Path)
    ensures p in ign ==> Ignored(ign, p)
  {
    if p in ign {
      assert HasFilepathPrefix(p, p);
    }
  }

  /** Whatever a path contributes is on the disk. */
  lemma ContributionPresent(d: Disk, ign: IgnoreList, f: Path, p: Path)
    requires Sane(d) && Plain(f) && Resolve.Contributes(d.nodes, ign, f, p)
    ensures p in d.nodes
  {
    if EvalSymlinks(d.nodes, f) == Found(p) {
      FollowFindsReal(d.nodes, [], f, EVAL_LINKS);
    } else if f != [] {
      Resolve.ClimbFindsFirstLink(d.nodes, f, |f|, p);
      if !Resolve.IsLink(d.nodes, p) {
        Resolve.FoundLeafExists(d.nodes, f);
      }
    }
  }

  lemma AbovePresent(d: Disk, p: Path, q: Path)
    requires Sane(d) && p in d.nodes && q <= p
    ensures q in d.nodes
  {
    assert q == p[..|q|];
    ClosedPrefix(d.nodes, p, |q|);
  }

  /** What is above a path that a layer can tell of is no marker file, and can be told as well. */
  lemma TellableAbove(ign: IgnoreList, p: Path, q: Path)
    requires Proper(ign) && Tellable(ign, p) && q <= p
    ensures Tellable(ign, q) && (q != p ==> !IsMarker(q))
  {
    VeiledBelow(ign, q, p);
    HiddenExact(ign, q);
  }

  lemma TellableName(ign: IgnoreList, p: Path)
    requires Proper(ign) && Tellable(ign, p) && Plain(p)
    ensures VisibleName(ign, p)
  {
    HiddenExact(ign, p);
    assert Parent(p) <= p;
    HiddenBelow(ign, Parent(p), p);
  }

  /** Every path that a describable file contributes is one of the disk that a layer can tell of. */
  lemma ContributionTellable(d: Disk, ign: IgnoreList, f: Path, p: Path, q: Path)
    requires Proper(ign) && Sane(d) && Describable(d, ign, f)
    requires Resolve.Contributes(d.nodes, ign, f, p) && q <= p
    ensures q in d.nodes && Tellable(ign, q)
    ensures Unharmful(d, ign, f) ==> Harmless(ign, d.nodes, q)
  {
    ContributionPresent(d, ign, f, p);
    AbovePresent(d, p, q);
    TellableAbove(ign, p, q);
  }

  /** Every path that a scanned file contributes is a scanned one. */
  lemma ContributionScanned(d: Disk, ign: IgnoreList, f: Path, p: Path, q: Path)
    requires Proper(ign) && Sane(d) && f in d.nodes && !Ignored(ign, f)
    requires Resolve.Contributes(d.nodes, ign, f, p) && q <= p
    ensures q in d.nodes && !Ignored(ign, q)
  {
    ContributionPresent(d, ign, f, p);
    Resolve.ClimbStays(d.nodes, f);
    AbovePresent(d, p, q);
    HiddenBelow(ign, q, p);
  }

  lemma FileContributesItself(d: Disk, ign: IgnoreList, f: Path)
    requires Sane(d) && f in d.nodes && !Ignored(ign, f)
    ensures Resolve.Contributes(d.nodes, ign, f, f)
  {
    SelfIgnored(ign, f);
    Resolve.ClimbStays(d.nodes, f);
  }

  /** Files on the disk that a layer can describe. */
  ghost predicate AllDescribable(d: Disk, ign: IgnoreList, paths: seq<Path>) {
    forall f :: f in paths ==> Describable(d, ign, f)
  }

  lemma NothingStops(d: Disk, ign: IgnoreList, paths: seq<Path>)
    requires AllDescribable(d, ign, paths)
    ensures forall f :: f in paths ==> !Resolve.Stops(d.nodes, ign, f)
  {
  }

  ghost predicate AllUnharmful(d: Disk, ign: IgnoreList, paths: seq<Path>) {
    forall f :: f in paths ==> Unharmful(d, ign, f)
  }

  lemma ReachedTellable(d: Disk, ign: IgnoreList, paths: seq<Path>, q: Path)
    requires Proper(ign) && Sane(d) && AllDescribable(d, ign, paths) && Resolve.Reached(d.nodes, ign, paths, q)
    ensures q in d.nodes && Tellable(ign, q) && paths != []
    ensures AllUnharmful(d, ign, paths) ==> Harmless(ign, d.nodes, q)
  {
    var p :| Resolve.Contributed(d.nodes, ign, paths, p) && q <= p;
    var f :| f in paths && Resolve.Contributes(d.nodes, ign, f, p);
    ContributionTellable(d, ign, f, p, q);
  }

  lemma AllReachedTellable(d: Disk, ign: IgnoreList, paths: seq<Path>, out: seq<Path>)
    requires Proper(ign) && Sane(d) && AllDescribable(d, ign, paths)
    requires forall q :: q in out <==> Resolve.Reached(d.nodes, ign, paths, q)
    ensures forall q :: q in out ==> q in d.nodes && Tellable(ign, q)
    ensures paths == [] ==> out == []
  {
    forall q | q in out ensures q in d.nodes && Tellable(ign, q) && paths != [] {
      ReachedTellable(d, ign, paths, q);
    }
    if out != [] {
      assert out[0] in out;
    }
  }

  lemma ListedReached(d: Disk, ign: IgnoreList, paths: seq<Path>, f: Path)
    requires Sane(d) && f in paths && f in d.nodes && !Ignored(ign, f)
    ensures Resolve.Reached(d.nodes, ign, paths, f)
  {
    FileContributesItself(d, ign, f);
    assert Resolve.Contributed(d.nodes, ign, paths, f);
    assert f <= f;
  }

  /** What `ResolvePaths` makes of files that a scan reports. */
  lemma ResolvedDescribes(d: Disk, ign: IgnoreList, paths: seq<Path>, out: seq<Path>)
    requires Proper(ign) && Sane(d)
    requires forall f :: f in paths ==> f in d.nodes && !Ignored(ign, f)
    requires forall q :: q in out <==> Resolve.Reached(d.nodes, ign, paths, q)
    ensures Describes(d, ign, Elements(paths), out)
  {
    hide Resolve.Reached, FromChange, Sane, Ignored;
    forall p | p in paths ensures p in out {
      ListedReached(d, ign, paths, p);
    }
    forall q ensures q in out <==> !Ignored(ign, q) && FromChange(d, ign, Elements(paths), q) {
      if FromChange(d, ign, Elements(paths), q) {
        ChangeReached(d, ign, paths, q);
      }
      if q in out {
        ReachedScanned(d, ign, paths, q);
      }
    }
    forall q | q in out ensures q in d.nodes {
      ReachedScanned(d, ign, paths, q);
    }
  }

  /** A path that is there and not ignored contributes what goes with it. */
  lemma GoesWithExact(d: Disk, ign: IgnoreList, c: Path, p: Path)
    requires Sane(d) && c in d.nodes && !Ignored(ign, c)
    ensures GoesWith(d, ign, c, p) <==> Resolve.Contributes(d.nodes, ign, c, p)
  {
    SelfIgnored(ign, c);
    Resolve.ClimbStays(d.nodes, c);
  }

  lemma ChangeReached(d: Disk, ign: IgnoreList, paths: seq<Path>, q: Path)
    requires Sane(d) && forall f :: f in paths ==> f in d.nodes && !Ignored(ign, f)
    requires FromChange(d, ign, Elements(paths), q)
    ensures Resolve.Reached(d.nodes, ign, paths, q)
  {
    hide Resolve.Contributes, GoesWith, Sane;
    var c, p :| c in Elements(paths) && GoesWith(d, ign, c, p) && q <= p;
    GoesWithExact(d, ign, c, p);
    assert Resolve.Contributed(d.nodes, ign, paths, p);
  }

  lemma ReachedScanned(d: Disk, ign: IgnoreList, paths: seq<Path>, q: Path)
    requires Proper(ign) && Sane(d) && Resolve.Reached(d.nodes, ign, paths, q)
    requires forall f :: f in paths ==> f in d.nodes && !Ignored(ign, f)
    ensures q in d.nodes && !Ignored(ign, q) && FromChange(d, ign, Elements(paths), q)
  {
    hide Resolve.Contributes, GoesWith, Sane;
    var p :| Resolve.Contributed(d.nodes, ign, paths, p) && q <= p;
    var f :| f in paths && Resolve.Contributes(d.nodes, ign, f, p);
    ContributionScanned(d, ign, f, p, q);
    GoesWithExact(d, ign, f, p);
    assert f in Elements(paths);
  }

  /** If every changed path can be described, so can every file that goes with it. */
  lemma DescribedTellable(d: Disk, ign: IgnoreList, changed: set<Path>, files: seq<Path>)
    requires Proper(ign) && Sane(d) && Describes(d, ign, changed, files)
    requires forall c :: c in changed ==> Describable(d, ign, c)
    ensures forall f :: f in files ==> f in d.nodes && Tellable(ign, f)
    ensures (forall c :: c in changed ==> Unharmful(d, ign, c)) ==> forall f :: f in files ==> Harmless(ign, d.nodes, f)
  {
    hide Sane, Describable, Unharmful, Harmless, Tellable, GoesWith, Ignored;
    forall f | f in files
      ensures f in d.nodes && Tellable(ign, f)
      ensures (forall c :: c in changed ==> Unharmful(d, ign, c)) ==> Harmless(ign, d.nodes, f)
    {
      var c, p :| c in changed && GoesWith(d, ign, c, p) && f <= p;
      GoesWithExact(d, ign, c, p);
      ContributionTellable(d, ign, c, p, f);
    }
  }

  /** At one path the record is what the scan saw there. */
  lemma RecordExactAt(d: Disk, ign: IgnoreList, image: Hashes, files: seq<Path>, p: Path)
    requires Hashable(d, ign)
    requires Describes(d, ign, Hits(true, image, d, Scanned(d, ign)), files)
    ensures var after := Recorded(image, d, files) - (image.Keys - Scanned(d, ign));
      && (p in after <==> p in Scanned(d, ign))
      && (p in Scanned(d, ign) ==> p in d.digest && after[p] == d.digest[p])
  {
    hide Ignored, FromChange;
    if p in Scanned(d, ign) && Changed(image, d, p) {
      assert p in Hits(true, image, d, Scanned(d, ign));
    }
  }

  /** After a scan the record is exactly what the scan saw. */
  lemma RecordExact(d: Disk, ign: IgnoreList, image: Hashes, files: seq<Path>)
    requires Hashable(d, ign)
    requires Describes(d, ign, Hits(true, image, d, Scanned(d, ign)), files)
    ensures Recorded(image, d, files) - (image.Keys - Scanned(d, ign)) == Digests(d, ign)
  {
    hide Describes, Recorded, Scanned, Hits, Hashable;
    var after := Recorded(image, d, files) - (image.Keys - Scanned(d, ign));
    forall p
      ensures p in after <==> p in Scanned(d, ign)
      ensures p in Scanned(d, ign) ==> p in d.digest && after[p] == d.digest[p]
    {
      RecordExactAt(d, ign, image, files, p);
    }
  }

  /** The record speaks of the old disk, and of everything that has been deleted since. */
  ghost predicate Remembers(ign: IgnoreList, image: Hashes, a: Disk, d: Disk) {
    && (forall p :: p in image ==> p in a.nodes && p in a.digest && image[p] == a.digest[p])
    && (forall p :: p in a.nodes && p !in d.nodes && !Hidden(ign, p) ==> p in image)
  }

  /** The hasher tells apart what it saw at one path then and now. */
  ghost predicate NoCollision(a: Disk, d: Disk) {
    forall p :: p in a.nodes && p in d.nodes && p in a.digest && p in d.digest && a.digest[p] == d.digest[p] ==>
      a.nodes[p] == d.nodes[p]
  }

  lemma GoneIsWhitable(ign: IgnoreList, image: Hashes, d: Disk, w: Path)
    requires Proper(ign) && Sane(d) && GoneTellable(image, d) && Record(ign, image)
    requires TopmostGone(image, Scanned(d, ign), w)
    ensures w != [] && w !in d.nodes && Plain(w) && Parent(w) in d.nodes && !Veiled(ign, w)
  {
    assert !Ignored(ign, ROOT);
    assert ROOT in Scanned(d, ign);
  }

  lemma GoneWritable(ign: IgnoreList, image: Hashes, d: Disk, gone: seq<Path>, shdCheckDelete: bool)
    requires Proper(ign) && Sane(d) && Record(ign, image) && (shdCheckDelete ==> GoneTellable(image, d))
    requires forall w :: w in gone ==> shdCheckDelete && TopmostGone(image, Scanned(d, ign), w)
    ensures Whitable(d, gone)
    ensures forall w :: w in gone ==> w !in d.nodes && Plain(w) && !Veiled(ign, w)
  {
    forall w | w in gone
      ensures w != [] && w !in d.nodes && Plain(w) && Parent(w) in d.nodes && !Veiled(ign, w)
    {
      GoneIsWhitable(ign, image, d, w);
    }
  }

  /** An entry about paths that a layer can tell of is visible, and harmless if what it was written for is. */
  lemma EntryVisible(ign: IgnoreList, d: Disk, files: seq<Path>, whiteouts: seq<Path>, e: TarEntry)
    requires Proper(ign) && Sane(d) && CoveredEntry(d, e, whiteouts + files)
    requires forall f :: f in files ==> f in d.nodes && Tellable(ign, f)
    requires forall w :: w in whiteouts ==> w !in d.nodes && Plain(w) && !Veiled(ign, w)
    ensures VisibleName(ign, e.name) && (e.body.HardlinkBody? ==> !Ignored(ign, e.body.original))
    ensures (forall f :: f in files ==> Harmless(ign, d.nodes, f)) ==> Harmless(ign, d.nodes, e.name)
  {
    hide Sane, VisibleName, Ignored, Harmless, Tellable, Veiled, Plain;
    if w :| w in whiteouts + files && w != [] && Plain(w) && w !in d.nodes && e == WhiteoutEntry(w) {
      assert w in whiteouts;
      WhiteoutVisible(ign, d, w);
    } else {
      var f :| f in whiteouts + files && e.name <= f;
      ListedAbove(ign, d, files, whiteouts, f, e.name);
      if e.body.HardlinkBody? {
        var g :| g in whiteouts + files && e.body.original <= g;
        NotIgnoredAbove(ign, d, files, whiteouts, g, e.body.original);
      }
      if !IsMarker(e.name) {
        NoMarkerHarmless(ign, d.nodes, e.name);
      }
    }
  }

  lemma NoMarkerHarmless(ign: IgnoreList, nodes: Nodes, p: Path)
    requires !IsMarker(p)
    ensures Harmless(ign, nodes, p)
  {
  }

  lemma NotIgnoredAbove(ign: IgnoreList, d: Disk, files: seq<Path>, whiteouts: seq<Path>, f: Path, p: Path)
    requires Proper(ign) && f in whiteouts + files && p <= f
    requires forall f :: f in files ==> f in d.nodes && Tellable(ign, f)
    requires forall w :: w in whiteouts ==> w !in d.nodes && Plain(w) && !Veiled(ign, w)
    ensures !Ignored(ign, p)
  {
    hide Ignored;
    assert f in whiteouts || f in files;
    HiddenBelow(ign, p, f);
  }

  lemma WhiteoutVisible(ign: IgnoreList, d: Disk, w: Path)
    requires Proper(ign) && w != [] && Plain(w) && w !in d.nodes && !Veiled(ign, w)
    ensures VisibleName(ign, WhiteoutEntry(w).name) && Harmless(ign, d.nodes, WhiteoutEntry(w).name)
  {
    hide Ignored, Marked;
    assert Parent(w) <= w;
    HiddenBelow(ign, Parent(w), w);
  }

  lemma ListedAbove(ign: IgnoreList, d: Disk, files: seq<Path>, whiteouts: seq<Path>, f: Path, p: Path)
    requires Proper(ign) && Sane(d) && f in whiteouts + files && p <= f && p in d.nodes
    requires forall f :: f in files ==> f in d.nodes && Tellable(ign, f)
    requires forall w :: w in whiteouts ==> w !in d.nodes && Plain(w) && !Veiled(ign, w)
    ensures VisibleName(ign, p) && (IsMarker(p) ==> p in files)
  {
    hide Sane, Ignored, Marked;
    assert f in whiteouts || f in files;
    assert Plain(p) by { SanePlain(d, p); }
    VeiledBelow(ign, p, f);
    HiddenExact(ign, p);
    TellableName(ign, p);
  }

  lemma SanePlain(d: Disk, p: Path)
    requires Sane(d) && p in d.nodes
    ensures Plain(p)
  {
  }

  /** A layer about paths that it can tell of is visible, and so harmless as the files listed. */
  lemma LayerVisible(ign: IgnoreList, d: Disk, files: seq<Path>, whiteouts: seq<Path>, layer: Layer)
    requires Proper(ign) && Sane(d) && LayerOf(d, files, whiteouts, layer)
    requires forall f :: f in files ==> f in d.nodes && Tellable(ign, f)
    requires forall w :: w in whiteouts ==> w !in d.nodes && Plain(w) && !Veiled(ign, w)
    ensures Visible(ign, layer)
    ensures (forall f :: f in files ==> Harmless(ign, d.nodes, f)) ==> MarkersHarmless(ign, d, layer)
  {
    hide Sane, CoveredEntry, VisibleName, Harmless, Tellable, Veiled;
    forall i | 0 <= i < |layer|
      ensures VisibleName(ign, layer[i].name) && (layer[i].body.HardlinkBody? ==> !Ignored(ign, layer[i].body.original))
      ensures (forall f :: f in files ==> Harmless(ign, d.nodes, f)) ==> Harmless(ign, d.nodes, layer[i].name)
    {
      EntryVisible(ign, d, files, whiteouts, layer[i]);
    }
  }

  /** A real change shows in the hash, so a scan finds it and the layer describes it. */
  lemma ScanWritesChanges(ign: IgnoreList, image: Hashes, a: Disk, d: Disk, files: seq<Path>, whiteouts: seq<Path>, layer: Layer)
    requires Remembers(ign, image, a, d) && NoCollision(a, d) && Hashable(d, ign)
    requires Describes(d, ign, Hits(true, image, d, Scanned(d, ign)), files)
    requires LayerOf(d, files, whiteouts, layer)
    ensures ChangesWritten(ign, a.nodes, d, layer)
  {
    forall q | q in d.nodes && !Hidden(ign, q) && At(a.nodes, q) != Some(d.nodes[q]) && !d.nodes[q].Special?
      ensures Written(layer, |layer|, q)
    {
      assert q in Hits(true, image, d, Scanned(d, ign));
      HiddenExact(ign, q);
      ToldIsWritten(d, layer, q);
    }
  }

  lemma ToldIsWritten(d: Disk, layer: Layer, q: Path)
    requires Told(d, layer, q) && !IsMarker(q)
    ensures Written(layer, |layer|, q)
  {
  }

  lemma ScanWritesDeletions(ign: IgnoreList, image: Hashes, a: Disk, d: Disk, whiteouts: seq<Path>, files: seq<Path>, layer: Layer)
    requires Proper(ign) && Remembers(ign, image, a, d)
    requires forall w :: w in whiteouts <==> TopmostGone(image, Scanned(d, ign), w)
    requires LayerOf(d, files, whiteouts, layer)
    ensures DeletionsWritten(ign, a.nodes, d, layer)
  {
    forall w | w in a.nodes && w !in d.nodes && !Hidden(ign, w) && IsDir(d.nodes, Parent(w)) && w != []
      ensures exists j :: 0 <= j < |layer| && WhitesOut(layer[j], w)
    {
      assert Parent(w) <= w;
      HiddenBelow(ign, Parent(w), w);
      assert w in whiteouts;
      var k :| 0 <= k < |whiteouts| && whiteouts[k] == w;
      assert WhitedIn(layer, whiteouts[k]);
    }
  }

  lemma ScanHashable(ign: IgnoreList, image: Hashes, d: Disk)
    requires Scannable(ign, image, d)
    ensures Sane(d) && Hashable(d, ign)
  {
  }

  /** What a full scan lists can be written. */
  lemma ScanWritable(ign: IgnoreList, image: Hashes, d: Disk, files: seq<Path>, whiteouts: seq<Path>)
    requires Scannable(ign, image, d) && Record(ign, image) && Tarable(ign, image, d)
    requires Describes(d, ign, Hits(true, image, d, Scanned(d, ign)), files)
    requires forall w :: w in whiteouts <==> TopmostGone(image, Scanned(d, ign), w)
    ensures Listable(d, files) && Whitable(d, whiteouts)
  {
    GoneWritable(ign, image, d, whiteouts, true);
    DescribedTellable(d, ign, Hits(true, image, d, Scanned(d, ign)), files);
  }

  /** The layer of a full scan is a true account of visible paths. */
  lemma ScanIsSnapshot(ign: IgnoreList, image: Hashes, d: Disk, files: seq<Path>, whiteouts: seq<Path>, layer: Layer)
    requires Scannable(ign, image, d) && Record(ign, image) && Tarable(ign, image, d)
    requires Describes(d, ign, Hits(true, image, d, Scanned(d, ign)), files)
    requires forall w :: w in whiteouts <==> TopmostGone(image, Scanned(d, ign), w)
    requires LayerOf(d, files, whiteouts, layer)
    ensures LayerMeaning.Snapshot(ign, d, layer)
    ensures ChangesUnharmful(ign, image, d) ==> MarkersHarmless(ign, d, layer)
  {
    hide Sane, Describable, Unharmful, Harmless, Tellable, Veiled, Describes, TopmostGone, Changed, MarkersHarmless, Visible, LayerOf;
    GoneWritable(ign, image, d, whiteouts, true);
    DescribedTellable(d, ign, Hits(true, image, d, Scanned(d, ign)), files);
    LayerVisible(ign, d, files, whiteouts, layer);
    LayerFaithful(d, files, whiteouts, layer);
  }

  lemma LayerFaithful(d: Disk, files: seq<Path>, whiteouts: seq<Path>, layer: Layer)
    requires LayerOf(d, files, whiteouts, layer)
    ensures Faithful(d, layer)
  {
  }

  /** The layer of a full scan accounts for every difference from the disk the record is of. */
  lemma ScanIsComplete(ign: IgnoreList, image: Hashes, a: Disk, d: Disk, files: seq<Path>, whiteouts: seq<Path>, layer: Layer)
    requires Scannable(ign, image, d) && Record(ign, image) && Tarable(ign, image, d)
    requires Remembers(ign, image, a, d) && NoCollision(a, d)
    requires Describes(d, ign, Hits(true, image, d, Scanned(d, ign)), files)
    requires forall w :: w in whiteouts <==> TopmostGone(image, Scanned(d, ign), w)
    requires LayerOf(d, files, whiteouts, layer)
    ensures RoundTrip.SnapshotOf(ign, a.nodes, d, layer)
  {
    ScanIsSnapshot(ign, image, d, files, whiteouts, layer);
    ScanWritesChanges(ign, image, a, d, files, whiteouts, layer);
    ScanWritesDeletions(ign, image, a, d, whiteouts, files, layer);
  }

  /** The entry whites out a topmost deleted path, or is for something that goes with a change or is above a deleted path. */
  ghost predicate ScanAccounts(ign: IgnoreList, image: Hashes, d: Disk, e: TarEntry) {
    || (exists w :: TopmostGone(image, Scanned(d, ign), w) && w != [] && Plain(w) && e == WhiteoutEntry(w))
    || (e.name in d.nodes
        && (FromChange(d, ign, Hits(true, image, d, Scanned(d, ign)), e.name)
            || exists w :: TopmostGone(image, Scanned(d, ign), w) && e.name < w))
  }

  /**
   * What a full scan writes: everything that goes with a change, links, their targets and the directories
   * above included; the topmost deleted paths; and nothing but that and the directories above.
   */
  ghost predicate ScanTells(ign: IgnoreList, image: Hashes, d: Disk, layer: Layer) {
    && (forall f :: FromChange(d, ign, Hits(true, image, d, Scanned(d, ign)), f) && !Ignored(ign, f) ==>
          f in d.nodes && (IsSocket(d.nodes[f]) || Told(d, layer, f)))
    && (forall w :: TopmostGone(image, Scanned(d, ign), w) && w != [] && IsDir(d.nodes, Parent(w)) ==> WhitedIn(layer, w))
    && (forall i :: 0 <= i < |layer| ==> ScanAccounts(ign, image, d, layer[i]))
  }

  lemma CoveredAccounts(ign: IgnoreList, image: Hashes, d: Disk, files: seq<Path>, whiteouts: seq<Path>, e: TarEntry)
    requires Describes(d, ign, Hits(true, image, d, Scanned(d, ign)), files)
    requires forall w :: w in whiteouts <==> TopmostGone(image, Scanned(d, ign), w)
    requires CoveredEntry(d, e, whiteouts + files) && forall w :: w in whiteouts ==> w !in d.nodes
    ensures ScanAccounts(ign, image, d, e)
  {
    hide GoesWith, Ignored, Plain;
    if w :| w in whiteouts + files && w != [] && Plain(w) && w !in d.nodes && e == WhiteoutEntry(w) {
      assert w in whiteouts;
    } else {
      var f :| f in whiteouts + files && e.name <= f;
      if f in whiteouts {
        assert f !in d.nodes && e.name in d.nodes;
        assert e.name <= f && e.name != f;
        StrictlyAbove(e.name, f);
      } else {
        AboveChange(d, ign, Hits(true, image, d, Scanned(d, ign)), f, e.name);
      }
    }
  }

  lemma StrictlyAbove(p: Path, q: Path)
    requires p <= q && p != q
    ensures p < q
  {
  }

  lemma AboveChange(d: Disk, ign: IgnoreList, changed: set<Path>, f: Path, q: Path)
    requires FromChange(d, ign, changed, f) && q <= f
    ensures FromChange(d, ign, changed, q)
  {
    hide GoesWith;
    var c, p :| c in changed && GoesWith(d, ign, c, p) && f <= p;
    PrefixTransitive(q, f, p);
  }

  lemma ScanWritesAll(ign: IgnoreList, image: Hashes, d: Disk, files: seq<Path>, whiteouts: seq<Path>, layer: Layer)
    requires Describes(d, ign, Hits(true, image, d, Scanned(d, ign)), files)
    requires forall w :: w in whiteouts <==> TopmostGone(image, Scanned(d, ign), w)
    requires Whitable(d, whiteouts) && LayerOf(d, files, whiteouts, layer)
    ensures ScanTells(ign, image, d, layer)
  {
    hide FromChange, TopmostGone, Told, WhitedIn, CoveredEntry, ScanAccounts, Faithful, Ignored, Scanned, Hits, Plain;
    forall w | TopmostGone(image, Scanned(d, ign), w) && w != [] && IsDir(d.nodes, Parent(w)) ensures WhitedIn(layer, w) {
      assert w in whiteouts;
      var k :| 0 <= k < |whiteouts| && whiteouts[k] == w;
    }
    forall i | 0 <= i < |layer| ensures ScanAccounts(ign, image, d, layer[i]) {
      CoveredAccounts(ign, image, d, files, whiteouts, layer[i]);
    }
  }

  lemma GoneOnce(ign: IgnoreList, image: Hashes, d: Disk, whiteouts: seq<Path>, layer: Layer)
    requires forall w :: w in whiteouts <==> TopmostGone(image, Scanned(d, ign), w)
    requires OnceEach(d, layer, FirstOf(whiteouts, |whiteouts|))
    ensures OnceEach(d, layer, image.Keys)
  {
    assert forall w :: w in FirstOf(whiteouts, |whiteouts|) ==> w in whiteouts;
  }

  lemma ChangesResolvable(ign: IgnoreList, image: Hashes, d: Disk, changed: seq<Path>)
    requires Scannable(ign, image, d) && Elements(changed) == Hits(true, image, d, Scanned(d, ign))
    ensures forall f :: f in changed ==> f in d.nodes && !Ignored(ign, f) && !Resolve.Stops(d.nodes, ign, f)
  {
    forall f | f in changed ensures f in d.nodes && !Ignored(ign, f) && !Resolve.Stops(d.nodes, ign, f) {
      assert f in Elements(changed);
    }
  }

  lemma AllListable(d: Disk, files: seq<Path>)
    requires forall f :: f in files ==> f in d.nodes
    ensures Listable(d, files)
  {
  }

  lemma TellableScanned(d: Disk, ign: IgnoreList, files: seq<Path>)
    requires forall f :: f in files ==> f in d.nodes && Tellable(ign, f)
    ensures forall f :: f in files ==> f in Scanned(d, ign)
  {
  }

  lemma HasElement(s: seq<Path>)
    ensures s != [] ==> exists x :: x in s
  {
    if s != [] {
      assert s[0] in s;
    }
  }

  lemma CoversNothing(d: Disk, layer: Layer, listed: seq<Path>)
    requires Covered(d, layer, listed)
    ensures listed == [] ==> layer == []
  {
    if |layer| > 0 {
      assert CoveredEntry(d, layer[0], listed);
    }
  }

  /** A scan of a disk that is exactly on record finds nothing to say. */
  lemma RescanIsEmpty(d: Disk, ign: IgnoreList, files: seq<Path>, whiteouts: seq<Path>, layer: Layer)
    requires Hashable(d, ign)
    requires Describes(d, ign, Hits(true, Digests(d, ign), d, Scanned(d, ign)), files)
    requires forall w :: w in whiteouts ==> TopmostGone(Digests(d, ign), Scanned(d, ign), w)
    requires LayerOf(d, files, whiteouts, layer)
    ensures files == [] && whiteouts == [] && layer == []
  {
    assert Hits(true, Digests(d, ign), d, Scanned(d, ign)) == {};
    HasElement(files);
    HasElement(whiteouts);
    CoversNothing(d, layer, whiteouts + files);
  }

  /** The results of a scan: what goes with a change, and the topmost deletions, each once and in the order of names. */
  ghost predicate ScanLists(ign: IgnoreList, image: Hashes, d: Disk, files: seq<Path>, whiteouts: seq<Path>) {
    && Describes(d, ign, Hits(true, image, d, Scanned(d, ign)), files)
    && (forall w :: w in whiteouts <==> TopmostGone(image, Scanned(d, ign), w))
    && SortedBy(files, Text) && Distinct(files)
    && SortedBy(whiteouts, Text) && Distinct(whiteouts)
  }

  lemma ArrangedLists(ign: IgnoreList, image: Hashes, d: Disk, found: seq<Path>, files: seq<Path>, whiteouts: seq<Path>)
    requires Describes(d, ign, Hits(true, image, d, Scanned(d, ign)), found) && forall f :: f in files <==> f in found
    requires forall w :: w in whiteouts <==> w in image.Keys - Scanned(d, ign) && Parent(w) !in image.Keys - Scanned(d, ign)
    requires SortedBy(files, Text) && Distinct(files) && SortedBy(whiteouts, Text) && Distinct(whiteouts)
    ensures ScanLists(ign, image, d, files, whiteouts)
  {
    hide Text, StrLe, Hits, Scanned, FromChange, Ignored, Distinct;
  }

  ghost predicate ScanLayer(ign: IgnoreList, image: Hashes, d: Disk, layer: Layer) {
    exists files, whiteouts :: ScanLists(ign, image, d, files, whiteouts) && layer == TarOf(d, files, whiteouts)
  }

  lemma LeastFirst(ps: seq<Path>, p: Path)
    requires SortedBy(ps, Text) && p in ps
    ensures StrLe(Text(ps[0]), Text(p))
  {
    var k :| 0 <= k < |ps| && ps[k] == p;
    StrLeTotal(Text(p), Text(p));
  }

  lemma WithoutFirst(ps: seq<Path>)
    requires SortedBy(ps, Text) && Distinct(ps) && ps != []
    ensures SortedBy(ps[1..], Text) && Distinct(ps[1..])
    ensures forall p :: p in ps[1..] <==> p in ps && p != ps[0]
  {
    hide Text, StrLe;
    assert ps == [ps[0]] + ps[1..];
    assert forall i :: 0 <= i < |ps| - 1 ==> ps[1..][i] == ps[i + 1];
  }

  /** There is one way to list a set of paths in the order of their names. */
  lemma {:induction false} SortedPathsUnique(ps: seq<Path>, qs: seq<Path>)
    requires SortedBy(ps, Text) && SortedBy(qs, Text) && Distinct(ps) && Distinct(qs)
    requires (forall p :: p in ps <==> p in qs) && forall p :: p in ps ==> Named(p)
    ensures ps == qs
    decreases |ps|
  {
    hide Text, StrLe, Named;
    HasElement(ps);
    HasElement(qs);
    if ps != [] && qs != [] {
      assert ps[0] in ps && qs[0] in qs;
      LeastFirst(ps, qs[0]);
      LeastFirst(qs, ps[0]);
      StrLeAntisymmetric(Text(ps[0]), Text(qs[0]));
      TextInjective(ps[0], qs[0]);
      WithoutFirst(ps);
      WithoutFirst(qs);
      SortedPathsUnique(ps[1..], qs[1..]);
      assert ps == [ps[0]] + ps[1..] && qs == [qs[0]] + qs[1..];
    }
  }

  /**
   * Snapshots are reproducible: although the walk, the resolution and the record come in any order, the
   * layer is a function of the record and the disk.
   */
  lemma ScanReproducible(ign: IgnoreList, image: Hashes, d: Disk, a: Layer, b: Layer)
    requires (forall p :: p in d.nodes ==> Named(p)) && (forall p :: p in image ==> Named(p))
    requires ScanLayer(ign, image, d, a) && ScanLayer(ign, image, d, b)
    ensures a == b
  {
    hide TarOf, Named, Text, Hits, FromChange;
    var f, v :| ScanLists(ign, image, d, f, v) && a == TarOf(d, f, v);
    var g, w :| ScanLists(ign, image, d, g, w) && b == TarOf(d, g, w);
    SortedPathsUnique(f, g);
    SortedPathsUnique(v, w);
  }

  class Snapshotter {
    const l: LayeredMap
    const ignorelist: IgnoreList

    constructor (l: LayeredMap, ignorelist: IgnoreList)
      ensures this.l == l && this.ignorelist == ignorelist
    {
      this.l, this.ignorelist := l, ignorelist;
    }

    /** `Init`: a first scan, for the record only. */
    method Init(d: Disk) returns (ok: bool)
      requires l.Valid() && Scannable(ignorelist, l.Image(), d)
      modifies l
      ensures ok && l.Valid() && l.Image() == Digests(d, ignorelist)
    {
      var filesToAdd, filesToWhiteout;
      ok, filesToAdd, filesToWhiteout := ScanFullFilesystem(d);
    }

    /**
     * `TakeSnapshotFS`: whatever old disk the record is of, the layer is a complete account of how
     * this one differs from it.
     */
    method TakeSnapshotFS(d: Disk) returns (ok: bool, layer: Layer)
      requires l.Valid() && Record(ignorelist, l.Image())
      requires Scannable(ignorelist, l.Image(), d) && Tarable(ignorelist, l.Image(), d)
      modifies l
      ensures ok && l.Valid() && l.Image() == Digests(d, ignorelist)
      ensures forall a: Disk :: Remembers(ignorelist, old(l.Image()), a, d) && NoCollision(a, d) ==>
        RoundTrip.SnapshotOf(ignorelist, a.nodes, d, layer)
      ensures LayerMeaning.Snapshot(ignorelist, d, layer)
      ensures ChangesUnharmful(ignorelist, old(l.Image()), d) ==> MarkersHarmless(ignorelist, d, layer)
      ensures ScanTells(ignorelist, old(l.Image()), d, layer)
      ensures OnceEach(d, layer, old(l.Image()).Keys)
      ensures ScanLayer(ignorelist, old(l.Image()), d, layer)
      ensures old(l.Image()) == Digests(d, ignorelist) ==> layer == []
    {
      hide Scannable, Tarable, Record, Describes, Listable, Whitable, LayerOf, Remembers, NoCollision, TopmostGone, Sane, ChangesUnharmful, MarkersHarmless;
      hide OnceEach, FirstOf, Distinct, ScanTells, TarOf;
      ScanHashable(ignorelist, l.Image(), d);
      ghost var image := l.Image();
      layer := [];
      var filesToAdd, filesToWhiteout;
      ok, filesToAdd, filesToWhiteout := ScanFullFilesystem(d);
      if !ok {
        return;
      }
      var t := new Tar();
      ScanWritable(ignorelist, image, d, filesToAdd, filesToWhiteout);
      ok := WriteToTar(t, d, filesToAdd, filesToWhiteout);
      if !ok {
        return;
      }
      layer := t.entries;
      ScanIsSnapshot(ignorelist, image, d, filesToAdd, filesToWhiteout, layer);
      ScanWritesAll(ignorelist, image, d, filesToAdd, filesToWhiteout, layer);
      GoneOnce(ignorelist, image, d, filesToWhiteout, layer);
      if image == Digests(d, ignorelist) {
        RescanIsEmpty(d, ignorelist, filesToAdd, filesToWhiteout, layer);
      }
      forall a: Disk | Remembers(ignorelist, image, a, d) && NoCollision(a, d)
        ensures RoundTrip.SnapshotOf(ignorelist, a.nodes, d, layer)
      {
        ScanIsComplete(ignorelist, image, a, d, filesToAdd, filesToWhiteout, layer);
      }
    }

    /**
     * `TakeSnapshot`: a layer of the listed files, what they lead to and the directories above,
     * with whiteouts only on request. Without files there is no layer.
     */
    method TakeSnapshot(d: Disk, files: seq<Path>, shdCheckDelete: bool, forceBuildMetadata: bool)
      returns (ok: bool, tar: Option<Layer>, ghost added: seq<Path>, ghost gone: seq<Path>)
      requires l.Valid() && Record(ignorelist, l.Image()) && Proper(ignorelist)
      requires Sane(d) && Hashable(d, ignorelist) && AllDescribable(d, ignorelist, files)
      requires shdCheckDelete ==> GoneTellable(l.Image(), d)
      modifies l
      ensures ok && l.Valid()
      ensures tar.None? <==> files == [] && !forceBuildMetadata
      ensures tar.None? ==> l.Image() == old(l.Image())
      ensures tar.Some? ==> forall q :: q in added <==> Resolve.Reached(d.nodes, ignorelist, files, q)
      ensures tar.Some? ==> Listed(d, old(l.Image()), added, gone, shdCheckDelete, tar.value)
      ensures tar.Some? ==> l.Image() == ListedImage(d, old(l.Image()), added, shdCheckDelete)
    {
      added, gone := [], [];
      l.Snapshot();
      if |files| == 0 && !forceBuildMetadata {
        return true, None, [], [];
      }
      NothingStops(d, ignorelist, files);
      var filesToAdd := Resolve.ResolvePaths(d.nodes, ignorelist, files);
      AllReachedTellable(d, ignorelist, files, filesToAdd);
      filesToAdd := SortPaths(filesToAdd);
      var layer;
      ok, layer, gone := WriteListed(d, filesToAdd, shdCheckDelete);
      tar, added := Some(layer), filesToAdd;
    }

    /**
     * A layer of listed files: true, visible, as harmless as they are, and with whiteouts for all that
     * is gone, on request.
     */
    ghost predicate Listed(d: Disk, image: Hashes, added: seq<Path>, gone: seq<Path>, shdCheckDelete: bool, layer: Layer) {
      && LayerOf(d, added, gone, layer) && Visible(ignorelist, layer)
      && layer == TarOf(d, added, gone)
      && SortedBy(added, Text) && Distinct(added) && SortedBy(gone, Text) && Distinct(gone)
      && ((forall f :: f in added ==> Harmless(ignorelist, d.nodes, f)) ==> MarkersHarmless(ignorelist, d, layer))
      && forall w :: w in gone <==> shdCheckDelete && TopmostGone(image, Scanned(d, ignorelist), w)
    }

    /** So is the layer of listed files: whatever the order of the list, and of what it leads to. */
    lemma ListedReproducible(d: Disk, image: Hashes, files: seq<Path>, shdCheckDelete: bool,
                             f: seq<Path>, v: seq<Path>, a: Layer, g: seq<Path>, w: seq<Path>, b: Layer)
      requires (forall p :: p in image ==> Named(p))
      requires forall q :: Resolve.Reached(d.nodes, ignorelist, files, q) ==> Named(q)
      requires Listed(d, image, f, v, shdCheckDelete, a) && forall q :: q in f <==> Resolve.Reached(d.nodes, ignorelist, files, q)
      requires Listed(d, image, g, w, shdCheckDelete, b) && forall q :: q in g <==> Resolve.Reached(d.nodes, ignorelist, files, q)
      ensures a == b
    {
      hide TarOf, Named, Text, Resolve.Reached, LayerOf, Visible, MarkersHarmless, Harmless;
      SortedPathsUnique(f, g);
      SortedPathsUnique(v, w);
    }

    /** The record after a snapshot of listed files. */
    ghost function ListedImage(d: Disk, image: Hashes, added: seq<Path>, shdCheckDelete: bool): Hashes {
      Recorded(image, d, added) - (if shdCheckDelete then image.Keys - Scanned(d, ignorelist) else {})
    }

    /** Records the listed files, then writes them out. */
    method WriteListed(d: Disk, filesToAdd: seq<Path>, shdCheckDelete: bool)
      returns (ok: bool, layer: Layer, gone: seq<Path>)
      requires l.Valid() && l.adds != [] && l.deletes[|l.deletes| - 1] == {} && l.layerHashCache == map[]
      requires Proper(ignorelist) && Sane(d) && Hashable(d, ignorelist) && Record(ignorelist, l.Image())
      requires shdCheckDelete ==> GoneTellable(l.Image(), d)
      requires forall f :: f in filesToAdd ==> f in d.nodes && Tellable(ignorelist, f)
      requires SortedBy(filesToAdd, Text) && Distinct(filesToAdd)
      modifies l
      ensures ok && l.Valid()
      ensures Listed(d, old(l.Image()), filesToAdd, gone, shdCheckDelete, layer)
      ensures l.Image() == ListedImage(d, old(l.Image()), filesToAdd, shdCheckDelete)
    {
      hide Sane, Hashable, Record, Describes, LayerOf, Tellable, Harmless, Visible, MarkersHarmless, Veiled, TopmostGone, Listable, Whitable, GoneTellable;
      ghost var image := l.Image();
      layer := [];
      TellableScanned(d, ignorelist, filesToAdd);
      ok, gone := RecordListed(d, filesToAdd, shdCheckDelete);
      if !ok {
        return;
      }
      GoneWritable(ignorelist, image, d, gone, shdCheckDelete);
      assert Listable(d, filesToAdd) by { AllListable(d, filesToAdd); }
      var t := new Tar();
      ok := WriteToTar(t, d, filesToAdd, gone);
      layer := t.entries;
      LayerVisible(ignorelist, d, filesToAdd, gone, layer);
    }

    /** Records the listed files and, on request, the deletions. */
    method RecordListed(d: Disk, filesToAdd: seq<Path>, shdCheckDelete: bool)
      returns (ok: bool, filesToWhiteout: seq<Path>)
      requires l.Valid() && l.adds != [] && l.deletes[|l.deletes| - 1] == {} && l.layerHashCache == map[]
      requires Proper(ignorelist) && Sane(d) && Hashable(d, ignorelist)
      requires forall f :: f in filesToAdd ==> f in Scanned(d, ignorelist)
      modifies l
      ensures ok && l.Valid()
      ensures forall w :: w in filesToWhiteout <==>
        shdCheckDelete && TopmostGone(old(l.Image()), Scanned(d, ignorelist), w)
      ensures SortedBy(filesToWhiteout, Text) && Distinct(filesToWhiteout)
      ensures l.Image() == ListedImage(d, old(l.Image()), filesToAdd, shdCheckDelete)
    {
      hide Sane, Ignored, Proper;
      filesToWhiteout := [];
      ok := AddFiles(l, d, filesToAdd);
      if !ok {
        return;
      }
      if shdCheckDelete {
        filesToWhiteout := RecordGone(d, old(l.Image()));
      }
    }

    /** Records and lists what the walk does not find any more. */
    method RecordGone(d: Disk, ghost image: Hashes) returns (filesToWhiteout: seq<Path>)
      requires l.Valid() && l.adds != [] && l.layerHashCache == map[]
      requires Proper(ignorelist) && Sane(d)
      requires l.Image().Keys - Scanned(d, ignorelist) == image.Keys - Scanned(d, ignorelist)
      modifies l
      ensures l.Valid() && l.Image() == old(l.Image()) - (image.Keys - Scanned(d, ignorelist))
      ensures forall w :: w in filesToWhiteout <==> TopmostGone(image, Scanned(d, ignorelist), w)
      ensures SortedBy(filesToWhiteout, Text) && Distinct(filesToWhiteout)
    {
      var existing := l.GetCurrentPaths();
      var _, deletedFiles := WalkFS(l, false, d, ignorelist, existing);
      AddDeletes(l, deletedFiles);
      var whiteouts := RemoveObsoleteWhiteouts(deletedFiles);
      filesToWhiteout := SortPaths(whiteouts);
    }

    /** The walk of `scanFullFilesystem` and what it resolves to. */
    method FindChanges(d: Disk, existing: set<Path>) returns (filesToAdd: seq<Path>, deletedPaths: set<Path>)
      requires Scannable(ignorelist, l.currentImage, d) && CacheFresh(l.layerHashCache, d)
      modifies l`layerHashCache
      ensures CacheFresh(l.layerHashCache, d)
      ensures Describes(d, ignorelist, Hits(true, l.currentImage, d, Scanned(d, ignorelist)), filesToAdd) && Distinct(filesToAdd)
      ensures deletedPaths == existing - Scanned(d, ignorelist)
    {
      var changedPaths;
      changedPaths, deletedPaths := WalkFS(l, true, d, ignorelist, existing);
      assert Elements(changedPaths) == Hits(true, l.currentImage, d, Scanned(d, ignorelist));
      ChangesResolvable(ignorelist, l.currentImage, d, changedPaths);
      var resolvedFiles := Resolve.ResolvePaths(d.nodes, ignorelist, changedPaths);
      ResolvedDescribes(d, ignorelist, changedPaths, resolvedFiles);
      filesToAdd := KeepVisible(ignorelist, resolvedFiles);
    }

    /**
     * `scanFullFilesystem`: afterwards the record is exact, and the results describe every change
     * and every topmost deletion since the last one.
     */
    method ScanFullFilesystem(d: Disk) returns (ok: bool, filesToAdd: seq<Path>, filesToWhiteout: seq<Path>)
      requires l.Valid() && Scannable(ignorelist, l.Image(), d)
      modifies l
      ensures ok && l.Valid() && l.adds != []
      ensures l.Image() == Digests(d, ignorelist)
      ensures ScanLists(ignorelist, old(l.Image()), d, filesToAdd, filesToWhiteout)
    {
      hide Describes, ScanLists, Digests, Distinct, Scanned, Hits, Fold;
      ScanHashable(ignorelist, l.Image(), d);
      var deletedPaths;
      filesToAdd, deletedPaths := OpenLayer(d);
      ok := RecordChanges(d, filesToAdd, deletedPaths);
      if !ok {
        return false, [], [];
      }
      ghost var found := filesToAdd;
      filesToAdd, filesToWhiteout := Arrange(filesToAdd, deletedPaths);
      ArrangedLists(ignorelist, old(l.Image()), d, found, filesToAdd, filesToWhiteout);
    }

    /** Opens a new layer and compares the disk with the image so far. */
    method OpenLayer(d: Disk) returns (filesToAdd: seq<Path>, deletedPaths: set<Path>)
      requires l.Valid() && Scannable(ignorelist, l.Image(), d)
      modifies l
      ensures l.Valid() && l.adds != [] && l.deletes[|l.deletes| - 1] == {} && l.Image() == old(l.Image())
      ensures CacheFresh(l.layerHashCache, d)
      ensures Describes(d, ignorelist, Hits(true, l.Image(), d, Scanned(d, ignorelist)), filesToAdd) && Distinct(filesToAdd)
      ensures deletedPaths == l.Image().Keys - Scanned(d, ignorelist)
    {
      hide Scannable, Describes, Hits, Scanned, Fold;
      l.Snapshot();
      var existing := l.GetCurrentPaths();
      filesToAdd, deletedPaths := FindChanges(d, existing);
    }

    /** The two recording loops of `scanFullFilesystem`. */
    method RecordChanges(d: Disk, filesToAdd: seq<Path>, deletedPaths: set<Path>) returns (ok: bool)
      requires l.Valid() && l.adds != [] && l.deletes[|l.deletes| - 1] == {} && CacheFresh(l.layerHashCache, d)
      requires Hashable(d, ignorelist)
      requires Describes(d, ignorelist, Hits(true, l.Image(), d, Scanned(d, ignorelist)), filesToAdd)
      requires deletedPaths == l.Image().Keys - Scanned(d, ignorelist)
      modifies l`isCurrentImageValid, l`adds, l`deletes
      ensures ok && l.Valid() && l.adds != [] && l.Image() == Digests(d, ignorelist)
    {
      RecordExact(d, ignorelist, l.Image(), filesToAdd);
      ok := AddFiles(l, d, filesToAdd);
      if !ok {
        return;
      }
      AddDeletes(l, deletedPaths);
    }
  }

  /** The lists that go to the tar writer, in the order of their names. */
  method Arrange(files: seq<Path>, deleted: set<Path>) returns (filesToAdd: seq<Path>, filesToWhiteout: seq<Path>)
    ensures SortedBy(filesToAdd, Text) && SortedBy(filesToWhiteout, Text) && Distinct(filesToWhiteout)
    ensures |filesToAdd| == |files| && (Distinct(files) ==> Distinct(filesToAdd)) && forall f :: f in filesToAdd <==> f in files
    ensures forall w :: w in filesToWhiteout <==> w in deleted && Parent(w) !in deleted
  {
    var whiteouts := RemoveObsoleteWhiteouts(deleted);
    filesToAdd := SortPaths(files);
    filesToWhiteout := SortPaths(whiteouts);
  }

  /** Drops the ignored ones among the resolved files. */
  method KeepVisible(ign: IgnoreList, files: seq<Path>) returns (kept: seq<Path>)
    ensures forall f :: f in kept <==> f in files && !Ignored(ign, f)
    ensures |kept| <= |files| && (Distinct(files) ==> Distinct(kept))
  {
    kept := [];
    for i := 0 to |files|
      invariant forall f :: f in kept <==> f in files[..i] && !Ignored(ign, f)
      invariant Distinct(files) ==> Distinct(kept)
      invariant |kept| <= i
    {
      assert files[..i + 1] == files[..i] + [files[i]];
      if Ignored(ign, files[i]) {
        continue;
      }
      kept := kept + [files[i]];
    }
    assert files[..|files|] == files;
  }
}

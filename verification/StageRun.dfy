/** A whole stage: the flattened image and the disk stay the same tree, step after step. */
module StageRuns {
  import opened Options
  import opened Paths
  import opened IgnoreLists
  import opened Disks
  import opened Extraction
  import opened ExtractionSteps
  import opened Changesets
  import opened LayeredMaps
  import opened Walk
  import opened LayerMeaning
  import opened RoundTrip
  import opened Snapshotters
  import Resolve
  import TarWriter

  /** What one command of a stage does to the disk, and what it reports. */
  datatype Step =
    | RunStep(after: Disk)                                             // RUN: any new tree, no file list
    | FilesStep(after: Disk, files: seq<Path>)                         // COPY, ADD, WORKDIR: a file list
    | NothingCopied                                                    // COPY whose file list stayed nil
    | CachedStep(layer: Layer, origin: Disk, before: Tree, after: Disk)  // a layer from the cache
    | MetadataStep                                                     // ENV, LABEL and the like

  function DiskAfter(a: Disk, step: Step): Disk {
    match step
    case RunStep(after) => after
    case FilesStep(after, _) => after
    case CachedStep(_, _, _, after) => after
    case _ => a
  }

  function InitAfter(init: bool, step: Step): bool {
    init || step.RunStep?
  }

  /** A disk that the snapshot code can hash. */
  ghost predicate Readable(ign: IgnoreList, d: Disk) {
    Proper(ign) && Sane(d) && Hashable(d, ign)
  }

  /** Every link that a scan sees leads somewhere or nowhere, but not astray. */
  ghost predicate LinksResolve(ign: IgnoreList, d: Disk) {
    forall p :: p in Scanned(d, ign) ==> !EvalSymlinks(d.nodes, p).Broken?
  }

  /** RUN may do anything that a layer can express and extraction can follow. */
  ghost predicate RunOk(ign: IgnoreList, a: Disk, d: Disk)
    requires Hashable(a, ign)
  {
    && Readable(ign, d) && LinksResolve(ign, a)
    && Scannable(ign, Digests(a, ign), d) && Tarable(ign, Digests(a, ign), d) && NoCollision(a, d)
    && Undisturbed(ign, a.nodes, d) && ChangesUnharmful(ign, Digests(a, ign), d)
  }

  /** The file is new, or its node or hash is not what it was. */
  ghost predicate Touched(a: Disk, d: Disk, p: Path) {
    !(p in a.nodes && p in d.nodes && a.nodes[p] == d.nodes[p]
      && p in a.digest && p in d.digest && a.digest[p] == d.digest[p])
  }

  /** COPY, ADD and WORKDIR delete nothing and list what they touch. */
  ghost predicate FilesOk(ign: IgnoreList, a: Disk, d: Disk, files: seq<Path>) {
    if files == [] then a == d
    else
      && Readable(ign, d) && AllDescribable(d, ign, files) && AllUnharmful(d, ign, files)
      && Scanned(a, ign) <= Scanned(d, ign)
      && (forall p :: p in Scanned(d, ign) && Touched(a, d, p) ==> Resolve.Reached(d.nodes, ign, files, p))
      && LinksYield(ign, a.nodes, d.nodes) && NoNewSpecial(ign, a.nodes, d.nodes) && MarkersUnlinked(ign, d)
  }

  /** A snapshot of everything can be taken, whatever is on record. */
  ghost predicate NothingOk(ign: IgnoreList, a: Disk) {
    MarkersUnlinked(ign, a) && forall p :: p in Scanned(a, ign) ==> Describable(a, ign, p) && Unharmful(a, ign, p)
  }

  /** A cached layer was written by some snapshot. */
  ghost predicate CacheFits(ign: IgnoreList, a: Disk, layer: Layer, origin: Disk, before: Tree, d: Disk) {
    && Readable(ign, d)
    && Snapshot(ign, origin, layer) && LinksGiveWay(ign, a.nodes, origin, layer)
    && Steady(ign, layer) && Keepable(ign, layer)
    && Good(before) && before.nodes == a.nodes
    && (var r := ApplyLayer(ign, true, before, layer); r.Done? && d.nodes == r.tree.nodes)
  }

  ghost predicate StepOk(ign: IgnoreList, a: Disk, init: bool, step: Step)
    requires Hashable(a, ign)
  {
    match step
    case RunStep(d) => RunOk(ign, a, d)
    case FilesStep(d, files) => FilesOk(ign, a, d, files)
    case CachedStep(layer, origin, before, d) => !init && CacheFits(ign, a, layer, origin, before, d)
    case NothingCopied => NothingOk(ign, a)
    case MetadataStep => true
  }

  ghost predicate AllStepsOk(ign: IgnoreList, a: Disk, init: bool, steps: seq<Step>)
    requires Hashable(a, ign)
    decreases |steps|
  {
    steps != [] ==>
      && StepOk(ign, a, init, steps[0])
      && Hashable(DiskAfter(a, steps[0]), ign)
      && AllStepsOk(ign, DiskAfter(a, steps[0]), InitAfter(init, steps[0]), steps[1..])
  }

  lemma NextStepOk(ign: IgnoreList, a: Disk, init: bool, steps: seq<Step>, i: nat)
    requires i < |steps| && Hashable(a, ign) && AllStepsOk(ign, a, init, steps[i..])
    ensures StepOk(ign, a, init, steps[i]) && Hashable(DiskAfter(a, steps[i]), ign)
    ensures AllStepsOk(ign, DiskAfter(a, steps[i]), InitAfter(init, steps[i]), steps[i + 1..])
  {
    hide Hashable, StepOk;
    assert steps[i..][0] == steps[i] && steps[i..][1..] == steps[i + 1..];
  }

  /** Facts about agreeing trees: a complete account of one is a complete account of the other. */
  lemma SnapshotOfAgrees(ign: IgnoreList, a: Nodes, b: Nodes, d: Disk, layer: Layer)
    requires Agree(ign, a, b) && SnapshotOf(ign, a, d, layer)
    ensures SnapshotOf(ign, b, d, layer)
  {
    hide Snapshot;
    forall q | q in d.nodes && !Hidden(ign, q) && At(b, q) != Some(d.nodes[q]) && !d.nodes[q].Special?
      ensures Written(layer, |layer|, q)
    {
      assert At(a, q) == At(b, q);
    }
    forall w | w in b && w !in d.nodes && !Hidden(ign, w) && IsDir(d.nodes, Parent(w)) && w != []
      ensures exists j :: 0 <= j < |layer| && WhitesOut(layer[j], w)
    {
      assert At(a, w) == At(b, w);
    }
  }

  lemma UndisturbedAgrees(ign: IgnoreList, a: Nodes, b: Nodes, d: Disk)
    requires Agree(ign, a, b) && Undisturbed(ign, a, d)
    ensures Undisturbed(ign, b, d)
  {
    hide GivesWay, MarkersUnlinked, Hidden, HoldsIgnored;
    forall q | !Hidden(ign, q) ensures At(a, q) == At(b, q) {
    }
    forall w | w in b && w !in d.nodes && !Hidden(ign, w) && w != [] && IsDir(d.nodes, Parent(w)) ensures !HoldsIgnored(ign, w) {
      assert At(a, w) == At(b, w);
    }
    LastingAgrees(ign, a, b, d.nodes);
    forall p | p in b && b[p].Symlink? && !Hidden(ign, p) && IsDir(d.nodes, p)
      ensures GivesWay(Lasting(ign, b, d.nodes)[p := b[p]], p)
    {
      assert At(a, p) == At(b, p);
    }
  }

  lemma LastingAgrees(ign: IgnoreList, a: Nodes, b: Nodes, d: Nodes)
    requires Agree(ign, a, b)
    ensures Lasting(ign, a, d) == Lasting(ign, b, d)
  {
    hide Hidden;
    forall q ensures At(Lasting(ign, a, d), q) == At(Lasting(ign, b, d), q) {
      assert !Hidden(ign, q) ==> At(a, q) == At(b, q);
    }
    assert forall q :: q in Lasting(ign, a, d) <==> At(Lasting(ign, a, d), q).Some?;
    assert forall q :: q in Lasting(ign, b, d) <==> At(Lasting(ign, b, d), q).Some?;
  }

  /** The tree that an image flattens to. */
  ghost predicate FlattensTo(ign: IgnoreList, base: Tree, layers: seq<Layer>, t: Tree) {
    ApplyLayers(ign, false, base, layers) == Done(t) && Good(t)
  }

  lemma FlattenNext(ign: IgnoreList, base: Tree, layers: seq<Layer>, t: Tree, layer: Layer, t': Tree)
    requires FlattensTo(ign, base, layers, t) && ApplyLayer(ign, false, t, layer) == Done(t') && Good(t')
    ensures FlattensTo(ign, base, layers + [layer], t')
  {
    assert (layers + [layer])[..|layers|] == layers;
  }

  /** Appending the layer of a complete snapshot keeps the image level with the disk. */
  lemma SnapshotKeepsLevel(ign: IgnoreList, a: Nodes, d: Disk, t: Tree, layer: Layer)
    requires Good(t) && Agree(ign, t.nodes, a) && SnapshotOf(ign, a, d, layer)
    requires Undisturbed(ign, a, d) && MarkersHarmless(ign, d, layer)
    ensures ApplyLayer(ign, false, t, layer).Done?
    ensures Good(ApplyLayer(ign, false, t, layer).tree)
    ensures Agree(ign, ApplyLayer(ign, false, t, layer).tree.nodes, d.nodes)
  {
    AgreeSymmetric(ign, t.nodes, a);
    SnapshotOfAgrees(ign, a, t.nodes, d, layer);
    UndisturbedAgrees(ign, a, t.nodes, d);
    HarmlessUndoesDiff(ign, t, d, layer);
  }

  lemma AnyRecordScannable(ign: IgnoreList, image: Hashes, a: Disk)
    requires Readable(ign, a) && LinksResolve(ign, a)
    ensures Scannable(ign, image, a)
  {
  }

  /** An exact record remembers the disk it is of. */
  lemma ExactRecord(ign: IgnoreList, a: Disk)
    requires Readable(ign, a)
    ensures Record(ign, Digests(a, ign))
    ensures forall d: Disk :: Remembers(ign, Digests(a, ign), a, d)
  {
    forall p | p in Scanned(a, ign) ensures Plain(p) && !Ignored(ign, p) && (p != [] ==> Parent(p) in Scanned(a, ign)) {
      ParentScanned(ign, a, p);
    }
    hide Sane, Scanned, Ignored;
    forall d: Disk ensures Remembers(ign, Digests(a, ign), a, d) {
      DigestsRemember(ign, a, d);
    }
  }

  lemma ParentScanned(ign: IgnoreList, a: Disk, p: Path)
    requires Readable(ign, a) && p in Scanned(a, ign)
    ensures Plain(p) && !Ignored(ign, p) && (p != [] ==> Parent(p) in Scanned(a, ign))
  {
    assert Parent(p) <= p;
    HiddenBelow(ign, Parent(p), p);
  }

  lemma DigestsRemember(ign: IgnoreList, a: Disk, d: Disk)
    requires Hashable(a, ign)
    ensures Remembers(ign, Digests(a, ign), a, d)
  {
  }

  /** Nothing below a marker is on record. */
  ghost predicate RecordTellable(record: Hashes) {
    forall p :: p in record ==> !Marked(Parent(p))
  }

  /** The state of `build` that concerns the file system and the image. */
  class StageRun {
    const snapshotter: Snapshotter
    const base: Tree
    const useCache: bool
    var disk: Disk
    var image: seq<Layer>
    var initSnapshotTaken: bool

    /**
     * Level: the image flattens to the disk. On record: everything once the initial snapshot is
     * taken, and before that only files that a layer may name.
     */
    ghost predicate Valid()
      reads this, snapshotter, snapshotter.l
    {
      var ign := snapshotter.ignorelist;
      && snapshotter.l.Valid()
      && Readable(ign, disk) && Record(ign, snapshotter.l.Image())
      && (if initSnapshotTaken then snapshotter.l.Image() == Digests(disk, ign)
          else RecordTellable(snapshotter.l.Image()))
      && Level(ign)
    }

    ghost predicate Level(ign: IgnoreList)
      reads this
    {
      exists t :: FlattensTo(ign, base, image, t) && Agree(ign, t.nodes, disk.nodes)
    }

    /** A stage starts from its unpacked base image with nothing on record. */
    constructor (s: Snapshotter, base: Tree, disk: Disk, useCache: bool)
      requires s.l.Valid() && s.l.Image() == map[] && Readable(s.ignorelist, disk)
      requires Good(base) && Agree(s.ignorelist, base.nodes, disk.nodes)
      ensures Valid() && this.disk == disk && this.base == base && image == [] && !initSnapshotTaken
      ensures snapshotter == s && this.useCache == useCache
    {
      this.snapshotter, this.base, this.disk, this.useCache := s, base, disk, useCache;
      image, initSnapshotTaken := [], false;
      new;
      assert FlattensTo(s.ignorelist, base, [], base);
    }

    /** `saveSnapshotToImage`: an empty tar makes no layer. */
    method SaveSnapshotToImage(layer: Layer)
      modifies this`image
      ensures image == if layer == [] then old(image) else old(image) + [layer]
    {
      if layer == [] {
        return;
      }
      image := image + [layer];
    }

    /** RUN: the initial snapshot if there was none yet, the command, a snapshot of everything. */
    method Run(d: Disk)
      requires Valid() && RunOk(snapshotter.ignorelist, disk, d)
      modifies this, snapshotter.l
      ensures Valid() && disk == d && initSnapshotTaken
    {
      hide Sane, Hashable, Proper, Scannable, Tarable, Record, Remembers, NoCollision, Agree, FlattensTo, Digests;
      hide Undisturbed, ChangesUnharmful, MarkersHarmless, SnapshotOf, Snapshot, LinksResolve;
      ghost var ign, a := snapshotter.ignorelist, disk;
      AnyRecordScannable(ign, snapshotter.l.Image(), a);
      if !initSnapshotTaken {
        var initOk := snapshotter.Init(disk);
        initSnapshotTaken := true;
      }
      ExactRecord(ign, a);
      disk := d;
      var ok, layer := snapshotter.TakeSnapshotFS(disk);
      assert Remembers(ign, Digests(a, ign), a, d);
      ghost var before := image;
      SaveSnapshotToImage(layer);
      SavedKeepsLevel(ign, base, before, a.nodes, d, layer, image);
      ExactRecord(ign, d);
    }

    /** COPY, ADD and WORKDIR: a snapshot of the files they list, without a look at deletions. */
    method CopyFiles(d: Disk, files: seq<Path>)
      requires Valid() && FilesOk(snapshotter.ignorelist, disk, d, files)
      modifies this, snapshotter.l
      ensures Valid() && disk == d && initSnapshotTaken == old(initSnapshotTaken)
      ensures image == old(image)
              || (image != [] && image[..|image| - 1] == old(image) && ShowsFiles(d, snapshotter.ignorelist, files, image[|image| - 1]))
    {
      hide Sane, Hashable, Proper, Record, Agree, FlattensTo, Digests, Describable, Scanned, Touched, ShowsFiles;
      hide Undisturbed, MarkersHarmless, SnapshotOf, Snapshot, Resolve.Reached, Marked, TarWriter.LayerOf, Visible, Harmless;
      hide LinksYield, NoNewSpecial, MarkersUnlinked, RecordTellable;
      ghost var ign, a, record := snapshotter.ignorelist, disk, snapshotter.l.Image();
      disk := d;
      var ok, tar, added, gone := snapshotter.TakeSnapshot(disk, files, false, false);
      if tar.Some? {
        ListedComplete(ign, a, d, files, added, gone, tar.value);
        ListedRecord(ign, a, d, files, added, record, snapshotter.l.Image());
        ListedHarmless(ign, a, d, files, added, tar.value);
        ListedShowsFiles(ign, a, d, files, added, gone, tar.value);
        ghost var before := image;
        SaveSnapshotToImage(tar.value);
        SavedKeepsLevel(ign, base, before, a.nodes, d, tar.value, image);
      }
    }

    /** COPY that copied nothing: a nil file list asks for a snapshot of everything. */
    method CopyNothing()
      requires Valid() && StepOk(snapshotter.ignorelist, disk, initSnapshotTaken, NothingCopied)
      modifies this, snapshotter.l
      ensures Valid() && disk == old(disk) && initSnapshotTaken == old(initSnapshotTaken)
    {
      hide Sane, Hashable, Proper, Scannable, Tarable, Record, Remembers, NoCollision, Agree, FlattensTo, Digests;
      hide Undisturbed, ChangesUnharmful, MarkersHarmless, SnapshotOf, Snapshot, NothingOk, RecordTellable;
      ghost var ign := snapshotter.ignorelist;
      DescribableTarable(ign, snapshotter.l.Image(), disk, initSnapshotTaken);
      var ok, layer := snapshotter.TakeSnapshotFS(disk);
      SnapshotOfItself(ign, disk, layer);
      ghost var before := image;
      SaveSnapshotToImage(layer);
      SavedKeepsLevel(ign, base, before, disk.nodes, disk, layer, image);
      ExactRecord(ign, disk);
    }

    /** A cached layer: extracted to the disk with its markers and appended to the image as it is. */
    method UseCached(layer: Layer, ghost origin: Disk, ghost before: Tree, d: Disk)
      requires Valid() && !initSnapshotTaken && CacheFits(snapshotter.ignorelist, disk, layer, origin, before, d)
      modifies this
      ensures Valid() && disk == d && !initSnapshotTaken
    {
      hide Sane, Hashable, Proper, Record, Digests, Good, Agree, FlattensTo, Snapshot, LinksGiveWay, Steady, Keepable, ApplyLayer;
      CachedKeepsLevel(snapshotter.ignorelist, base, image, disk, layer, origin, before, d);
      disk := d;
      image := image + [layer];
    }

    /**
     * A cached layer that is extracted after the initial snapshot goes by the record. A RUN that then puts
     * back what is on record has no layer, and the image keeps what the cached layer put there.
     */
    method RestoredIsMissed(layer: Layer, ghost origin: Disk, ghost before: Tree, c: Disk, restored: Disk)
      requires Valid() && initSnapshotTaken && restored == disk
      requires CacheFits(snapshotter.ignorelist, disk, layer, origin, before, c)
      requires !Agree(snapshotter.ignorelist, c.nodes, restored.nodes)
      requires LinksResolve(snapshotter.ignorelist, restored) && NothingOk(snapshotter.ignorelist, restored)
      modifies this, snapshotter.l
      ensures disk == restored && image == old(image) + [layer] && !Level(snapshotter.ignorelist)
    {
      hide Sane, Hashable, Proper, Scannable, Tarable, Record, Remembers, NoCollision, Agree, FlattensTo, Digests, CacheFits;
      hide ChangesUnharmful, MarkersHarmless, SnapshotOf, Snapshot, NothingOk, RecordTellable, LinksResolve;
      ghost var ign := snapshotter.ignorelist;
      CachedKeepsLevel(ign, base, image, disk, layer, origin, before, c);
      OneTree(ign, base, image + [layer], c.nodes, restored.nodes);
      disk := c;
      image := image + [layer];
      DescribableTarable(ign, snapshotter.l.Image(), restored, true);
      ExactRecord(ign, restored);
      disk := restored;
      var ok, tar := snapshotter.TakeSnapshotFS(disk);
      SaveSnapshotToImage(tar);
    }

    /** Metadata commands leave the disk alone; with caching on they still open a layer of the record. */
    method Metadata()
      requires Valid()
      modifies snapshotter.l
      ensures Valid()
    {
      if useCache {
        var ok, tar, added, gone := snapshotter.TakeSnapshot(disk, [], false, false);
      }
    }

    /**
     * The command loop of `build`. After any sequence of steps the base image and the layers
     * appended to it flatten to the disk.
     */
    method Build(steps: seq<Step>)
      requires Valid() && AllStepsOk(snapshotter.ignorelist, disk, initSnapshotTaken, steps)
      modifies this, snapshotter.l
      ensures Valid() && Level(snapshotter.ignorelist)
    {
      hide Sane, Hashable, Proper, Record, Level, RunOk, FilesOk, CacheFits, Digests, AllStepsOk;
      for i := 0 to |steps|
        invariant Valid()
        invariant AllStepsOk(snapshotter.ignorelist, disk, initSnapshotTaken, steps[i..])
      {
        ghost var next, init := DiskAfter(disk, steps[i]), InitAfter(initSnapshotTaken, steps[i]);
        NextStepOk(snapshotter.ignorelist, disk, initSnapshotTaken, steps, i);
        match steps[i] {
          case RunStep(d) => Run(d);
          case FilesStep(d, files) => CopyFiles(d, files);
          case NothingCopied => CopyNothing();
          case CachedStep(layer, origin, before, d) => UseCached(layer, origin, before, d);
          case MetadataStep => Metadata();
        }
        assert disk == next && initSnapshotTaken == init;
      }
    }
  }

  /** The layer shows files on the disk that the list leads to, and deletes nothing. */
  ghost predicate ShowsFiles(d: Disk, ign: IgnoreList, files: seq<Path>, layer: Layer) {
    forall i :: 0 <= i < |layer| ==> layer[i].name in d.nodes && Resolve.Reached(d.nodes, ign, files, layer[i].name)
  }

  lemma ListedShowsFiles(ign: IgnoreList, a: Disk, d: Disk, files: seq<Path>, added: seq<Path>, gone: seq<Path>, layer: Layer)
    requires files != [] && FilesOk(ign, a, d, files)
    requires TarWriter.LayerOf(d, added, gone, layer) && forall w :: w !in gone
    requires forall q :: q in added <==> Resolve.Reached(d.nodes, ign, files, q)
    ensures ShowsFiles(d, ign, files, layer)
  {
    hide Sane, Hashable, Proper, AllDescribable, AllUnharmful, LinksYield, NoNewSpecial, MarkersUnlinked, Faithful;
    hide TarWriter.Told, TarWriter.WhitedOutUpTo, Resolve.Contributed, Veiled;
    AddedTellable(ign, d, files, added);
    HasElement(gone);
    assert gone + added == added;
    forall i | 0 <= i < |layer| ensures layer[i].name in d.nodes && Resolve.Reached(d.nodes, ign, files, layer[i].name) {
      assert TarWriter.CoveredEntry(d, layer[i], added);
      UnderReached(d, ign, files, added, layer[i].name);
    }
  }

  lemma UnderReached(d: Disk, ign: IgnoreList, files: seq<Path>, added: seq<Path>, p: Path)
    requires forall q :: q in added <==> Resolve.Reached(d.nodes, ign, files, q)
    ensures TarWriter.Under(p, added) ==> Resolve.Reached(d.nodes, ign, files, p)
  {
    hide Resolve.Contributed;
    if TarWriter.Under(p, added) {
      var f :| f in added && p <= f;
      assert Resolve.Reached(d.nodes, ign, files, f);
      var q :| Resolve.Contributed(d.nodes, ign, files, q) && f <= q;
      PrefixTransitive(p, f, q);
    }
  }

  /** The layer of a step that lists what it touches is a complete account of the step. */
  lemma ListedComplete(ign: IgnoreList, a: Disk, d: Disk, files: seq<Path>, added: seq<Path>, gone: seq<Path>, layer: Layer)
    requires files != [] && FilesOk(ign, a, d, files)
    requires TarWriter.LayerOf(d, added, gone, layer) && Visible(ign, layer)
    requires forall q :: q in added <==> Resolve.Reached(d.nodes, ign, files, q)
    ensures SnapshotOf(ign, a.nodes, d, layer) && Undisturbed(ign, a.nodes, d)
  {
    hide Sane, AllDescribable, AllUnharmful, LinksYield, NoNewSpecial, MarkersUnlinked, Resolve.Reached, Hidden, Faithful, TarWriter.Told;
    forall q | q in d.nodes && !Hidden(ign, q) && At(a.nodes, q) != Some(d.nodes[q]) && !d.nodes[q].Special?
      ensures Written(layer, |layer|, q)
    {
      HiddenExact(ign, q);
      VisibleScanned(ign, d, q);
      assert q in Scanned(d, ign) && Touched(a, d, q);
      assert q in added;
      ToldIsWritten(d, layer, q);
    }
    forall w | w in a.nodes && !Hidden(ign, w) ensures w in d.nodes {
      VisibleScanned(ign, a, w);
    }
  }

  lemma VisibleScanned(ign: IgnoreList, d: Disk, q: Path)
    requires q in d.nodes && !Hidden(ign, q)
    ensures q in Scanned(d, ign)
  {
  }

  /** What such a step lists holds no marker file that would take anything away. */
  lemma ListedHarmless(ign: IgnoreList, a: Disk, d: Disk, files: seq<Path>, added: seq<Path>, layer: Layer)
    requires files != [] && FilesOk(ign, a, d, files)
    requires forall q :: q in added <==> Resolve.Reached(d.nodes, ign, files, q)
    requires (forall f :: f in added ==> Harmless(ign, d.nodes, f)) ==> MarkersHarmless(ign, d, layer)
    ensures MarkersHarmless(ign, d, layer)
  {
    hide Sane, Hashable, AllDescribable, AllUnharmful, LinksYield, NoNewSpecial, MarkersUnlinked, Resolve.Reached, Harmless, MarkersHarmless, Tellable;
    forall f | f in added ensures Harmless(ign, d.nodes, f) {
      ReachedTellable(d, ign, files, f);
    }
  }

  lemma ListedRecord(ign: IgnoreList, a: Disk, d: Disk, files: seq<Path>, added: seq<Path>, record: Hashes, after: Hashes)
    requires files != [] && FilesOk(ign, a, d, files) && Hashable(a, ign) && Record(ign, record)
    requires forall q :: q in added <==> Resolve.Reached(d.nodes, ign, files, q)
    requires after == Recorded(record, d, added) - {}
    ensures Record(ign, after)
    ensures record == Digests(a, ign) ==> after == Digests(d, ign)
    ensures RecordTellable(record) ==> RecordTellable(after)
  {
    hide Resolve.Reached, Record, Recorded;
    assert after == Recorded(record, d, added);
    AddedTellable(ign, d, files, added);
    ListedRecordClosed(ign, d, files, added, record);
    if record == Digests(a, ign) {
      ListedExact(ign, a, d, files, added);
    }
  }

  lemma ListedRecordClosed(ign: IgnoreList, d: Disk, files: seq<Path>, added: seq<Path>, record: Hashes)
    requires Record(ign, record)
    requires forall p :: p in added ==> p in d.digest && !Veiled(ign, p) && Plain(p)
    requires forall q :: q in added <==> Resolve.Reached(d.nodes, ign, files, q)
    ensures Record(ign, Recorded(record, d, added))
    ensures RecordTellable(record) ==> RecordTellable(Recorded(record, d, added))
  {
    hide Resolve.Reached, Ignored, Marked;
    var after := Recorded(record, d, added);
    forall p | p in added && p != [] ensures Parent(p) in after {
      ReachedParent(d, ign, files, p);
      assert Parent(p) in added;
    }
  }

  lemma AddedTellable(ign: IgnoreList, d: Disk, files: seq<Path>, added: seq<Path>)
    requires Readable(ign, d) && AllDescribable(d, ign, files)
    requires forall q :: q in added <==> Resolve.Reached(d.nodes, ign, files, q)
    ensures forall p :: p in added ==> p in d.nodes && p in d.digest && !Veiled(ign, p) && Plain(p)
  {
    forall p | p in added ensures p in d.nodes && p in d.digest && !Veiled(ign, p) && Plain(p) {
      ReachedTellable(d, ign, files, p);
    }
  }

  lemma ReachedParent(d: Disk, ign: IgnoreList, files: seq<Path>, p: Path)
    requires Resolve.Reached(d.nodes, ign, files, p)
    ensures Resolve.Reached(d.nodes, ign, files, Parent(p))
  {
    var q :| Resolve.Contributed(d.nodes, ign, files, q) && p <= q;
    assert Parent(p) <= p;
    PrefixTransitive(Parent(p), p, q);
  }

  lemma ListedExact(ign: IgnoreList, a: Disk, d: Disk, files: seq<Path>, added: seq<Path>)
    requires files != [] && FilesOk(ign, a, d, files) && Hashable(a, ign)
    requires forall p :: p in added ==> p in d.nodes && p in d.digest && !Veiled(ign, p)
    requires forall q :: q in added <==> Resolve.Reached(d.nodes, ign, files, q)
    ensures Recorded(Digests(a, ign), d, added) == Digests(d, ign)
  {
    hide Sane, Describable, LinksYield, Resolve.Reached, NoNewSpecial;
    var after := Recorded(Digests(a, ign), d, added);
    forall p ensures p in after <==> p in Scanned(d, ign) {
      if p in Scanned(d, ign) && Touched(a, d, p) {
        assert p in added;
      }
    }
    forall p | p in Scanned(d, ign) ensures after[p] == d.digest[p] {
      if Touched(a, d, p) {
        assert p in added;
      }
    }
  }

  lemma DescribableTarable(ign: IgnoreList, image: Hashes, a: Disk, init: bool)
    requires Readable(ign, a) && NothingOk(ign, a)
    requires if init then image == Digests(a, ign) else RecordTellable(image)
    ensures Scannable(ign, image, a) && Tarable(ign, image, a) && ChangesUnharmful(ign, image, a)
    ensures RecordTellable(Digests(a, ign)) && MarkersUnlinked(ign, a)
  {
    hide EvalSymlinks, Veiled, Marked, Unharmful, Resolve.Contributes, Sane, Changed, Ignored;
    forall p | p in Scanned(a, ign) ensures !Marked(Parent(p)) {
      ScannedTellable(ign, a, p);
    }
  }

  lemma ScannedTellable(ign: IgnoreList, a: Disk, p: Path)
    requires Readable(ign, a) && p in Scanned(a, ign) && Describable(a, ign, p)
    ensures !Marked(Parent(p))
  {
    FileContributesItself(a, ign, p);
  }

  /** A true account of a disk is complete when nothing has happened. */
  lemma SnapshotOfItself(ign: IgnoreList, d: Disk, layer: Layer)
    requires Snapshot(ign, d, layer) && MarkersUnlinked(ign, d)
    ensures SnapshotOf(ign, d.nodes, d, layer) && Undisturbed(ign, d.nodes, d)
  {
    hide Snapshot, MarkersUnlinked;
  }

  /** Saving the layer of a snapshot keeps the image level, even if the layer is empty. */
  lemma SavedKeepsLevel(ign: IgnoreList, base: Tree, image: seq<Layer>, a: Nodes, d: Disk, layer: Layer, image': seq<Layer>)
    requires SnapshotOf(ign, a, d, layer) && Undisturbed(ign, a, d) && MarkersHarmless(ign, d, layer)
    requires exists t :: FlattensTo(ign, base, image, t) && Agree(ign, t.nodes, a)
    requires image' == if layer == [] then image else image + [layer]
    ensures exists t :: FlattensTo(ign, base, image', t) && Agree(ign, t.nodes, d.nodes)
  {
    hide SnapshotOf, Undisturbed, MarkersHarmless, Agree;
    var t :| FlattensTo(ign, base, image, t) && Agree(ign, t.nodes, a);
    SnapshotKeepsLevel(ign, a, d, t, layer);
    var t' := ApplyLayer(ign, false, t, layer).tree;
    if layer != [] {
      FlattenNext(ign, base, image, t, layer, t');
    }
    assert FlattensTo(ign, base, image', t') && Agree(ign, t'.nodes, d.nodes);
  }

  /** An image flattens to one tree only. */
  lemma OneTree(ign: IgnoreList, base: Tree, image: seq<Layer>, c: Nodes, d: Nodes)
    requires exists t :: FlattensTo(ign, base, image, t) && Agree(ign, t.nodes, c)
    requires !Agree(ign, c, d)
    ensures forall t :: FlattensTo(ign, base, image, t) ==> !Agree(ign, t.nodes, d)
  {
    hide ApplyLayers, Good;
    var t :| FlattensTo(ign, base, image, t) && Agree(ign, t.nodes, c);
    forall u | FlattensTo(ign, base, image, u) ensures !Agree(ign, u.nodes, d) {
      assert u == t;
      var q :| !Hidden(ign, q) && At(c, q) != At(d, q);
      assert At(t.nodes, q) == At(c, q);
    }
  }

  lemma CachedKeepsLevel(ign: IgnoreList, base: Tree, image: seq<Layer>, a: Disk,
                         layer: Layer, origin: Disk, before: Tree, d: Disk)
    requires CacheFits(ign, a, layer, origin, before, d)
    requires exists t :: FlattensTo(ign, base, image, t) && Agree(ign, t.nodes, a.nodes)
    ensures exists t :: FlattensTo(ign, base, image + [layer], t) && Agree(ign, t.nodes, d.nodes)
  {
    hide Snapshot, LinksGiveWay, Steady, Keepable, Agree;
    var t :| FlattensTo(ign, base, image, t) && Agree(ign, t.nodes, a.nodes);
    AgreeSymmetric(ign, t.nodes, a.nodes);
    LinksGiveWayAgrees(ign, a.nodes, t.nodes, origin, layer);
    LayerRespectsAgreement(ign, true, t, before, origin, layer);
    FlattenNext(ign, base, image, t, layer, ApplyLayer(ign, false, t, layer).tree);
  }

  /** Directories and regular files only; what has a marker's name is a file, and would not delete the root. */
  ghost predicate OnlyFiles(nodes: Nodes) {
    forall p :: p in nodes ==>
      (nodes[p].Dir? || nodes[p].File?) && (IsMarker(p) ==> nodes[p].File? && Whited(p) != ROOT)
  }

  lemma NothingBelowMarkers(nodes: Nodes, p: Path)
    requires Closed(nodes) && OnlyFiles(nodes) && p in nodes
    ensures !Marked(Parent(p))
  {
    forall k | 0 <= k < |Parent(p)| ensures !MarkerName(Parent(p)[k]) {
      ClosedPrefix(nodes, p, k + 1);
      assert Base(p[..k + 1]) == p[k] == Parent(p)[k];
    }
  }

  lemma ClimbEndsHere(nodes: Nodes, f: Path)
    requires Closed(nodes) && OnlyFiles(nodes) && Plain(f) && Resolve.Climb(nodes, f, |f|).Found?
    ensures Resolve.Climb(nodes, f, |f|).path == f
  {
    hide Resolve.Climb, Closed, Plain;
    Resolve.SearchesAgree(nodes, f);
    assert Resolve.FirstLink(nodes, f, f);
  }

  /** A file of such a tree contributes nothing but itself. */
  lemma FileDescribable(ign: IgnoreList, d: Disk, f: Path)
    requires Readable(ign, d) && OnlyFiles(d.nodes) && f in d.nodes && !Ignored(ign, f)
    ensures EvalSymlinks(d.nodes, f) == Found(f) && Describable(d, ign, f)
    ensures Harmless(ign, d.nodes, f) ==> Unharmful(d, ign, f)
  {
    hide Resolve.Climb, Ignored, Marked, Harmless;
    ClosedLiteral(d.nodes, f);
    StatLiteral(d.nodes, f);
    NothingBelowMarkers(d.nodes, f);
    if Resolve.Climb(d.nodes, f, |f|).Found? {
      ClimbEndsHere(d.nodes, f);
    }
  }

  lemma FilesScannable(ign: IgnoreList, image: Hashes, d: Disk)
    requires Readable(ign, d) && OnlyFiles(d.nodes) && RecordTellable(image)
    ensures LinksResolve(ign, d) && Scannable(ign, image, d) && Tarable(ign, image, d)
  {
    hide Describable, EvalSymlinks, Marked, Ignored, Sane, Hashable, Changed, OnlyFiles;
    forall p | p in Scanned(d, ign) ensures !EvalSymlinks(d.nodes, p).Broken? && Describable(d, ign, p) {
      FileDescribable(ign, d, p);
    }
  }

  lemma FilesYield(ign: IgnoreList, a: Nodes, d: Nodes)
    requires OnlyFiles(a) && OnlyFiles(d)
    ensures LinksYield(ign, a, d) && NoNewSpecial(ign, a, d)
  {
    hide Hidden, Lasting, GivesWay;
  }

  /** No new or changed file with a marker's name has its path on the disk. */
  ghost predicate NewMarkersHarmless(ign: IgnoreList, a: Disk, d: Disk) {
    forall p :: p in Scanned(d, ign) && IsMarker(p) && Touched(a, d, p) ==> Harmless(ign, d.nodes, p)
  }

  lemma ChangedIsTouched(ign: IgnoreList, a: Disk, d: Disk, p: Path)
    requires Hashable(a, ign) && p in Scanned(d, ign) && Changed(Digests(a, ign), d, p)
    ensures Touched(a, d, p)
  {
  }

  lemma FilesUnharmful(ign: IgnoreList, a: Disk, d: Disk)
    requires Readable(ign, a) && Readable(ign, d) && OnlyFiles(d.nodes) && NewMarkersHarmless(ign, a, d)
    ensures ChangesUnharmful(ign, Digests(a, ign), d)
  {
    hide OnlyFiles, Describable, Unharmful, EvalSymlinks, Sane, Hashable, Changed, Touched, Ignored;
    forall p | p in Scanned(d, ign) && Changed(Digests(a, ign), d, p) ensures Unharmful(d, ign, p) {
      ChangedIsTouched(ign, a, d, p);
      FileDescribable(ign, d, p);
    }
  }

  lemma FilesRecord(ign: IgnoreList, a: Disk)
    requires Readable(ign, a) && OnlyFiles(a.nodes)
    ensures RecordTellable(Digests(a, ign))
  {
    hide OnlyFiles, Ignored, Marked;
    forall p | p in a.nodes ensures !Marked(Parent(p)) {
      NothingBelowMarkers(a.nodes, p);
    }
  }

  /**
   * Between trees of directories and files, RUN may do anything that holds no ignore entry back, gives
   * no visible file a marker for another name, and puts no marker beside the path it stands for.
   */
  lemma FilesRunOk(ign: IgnoreList, a: Disk, d: Disk)
    requires Readable(ign, a) && Readable(ign, d) && OnlyFiles(a.nodes) && OnlyFiles(d.nodes)
    requires NoCollision(a, d) && NothingHeldBack(ign, a.nodes, d.nodes)
    requires MarkersUnlinked(ign, d) && NewMarkersHarmless(ign, a, d)
    ensures RunOk(ign, a, d)
  {
    FilesYield(ign, a.nodes, d.nodes);
    FilesRecord(ign, a);
    FilesScannable(ign, Digests(a, ign), a);
    FilesScannable(ign, Digests(a, ign), d);
    FilesUnharmful(ign, a, d);
    hide LinksYield, NoNewSpecial, NothingHeldBack, LinksResolve, Scannable, Tarable, NoCollision, OnlyFiles;
    hide MarkersUnlinked, ChangesUnharmful;
  }

  lemma AgreeSymmetric(ign: IgnoreList, a: Nodes, b: Nodes)
    requires Agree(ign, a, b)
    ensures Agree(ign, b, a)
  {
    forall q | !Hidden(ign, q) ensures At(b, q) == At(a, q) {
    }
  }
}

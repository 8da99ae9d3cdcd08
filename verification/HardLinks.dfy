/** Names that share an inode on the disk share one again after extraction. */
module HardLinks {
  import opened Paths
  import opened IgnoreLists
  import opened Disks
  import opened Extraction
  import opened ExtractionSteps
  import opened Changesets
  import opened LayerMeaning

  /** A file or symbolic link that stands after the first `i` entries, and is not linked to a skipped one. */
  ghost predicate Made(ign: IgnoreList, d: Disk, layer: Layer, i: nat, p: Path)
    requires i <= |layer|
  {
    && !IsMarker(p) && Stands(ign, layer, i, p) && LinkedFrom(d, layer, i, p) == p
    && p in d.nodes && p in d.ino && !d.nodes[p].Dir? && !d.nodes[p].Special?
  }

  /** Among the files made so far, the same inode before means the same inode now. */
  ghost predicate SameClasses(ign: IgnoreList, d: Disk, layer: Layer, i: nat, t: Tree)
    requires i <= |layer|
  {
    forall p, q :: Made(ign, d, layer, i, p) && Made(ign, d, layer, i, q) ==> Matched(d, t, p, q)
  }

  ghost predicate Matched(d: Disk, t: Tree, p: Path, q: Path) {
    && p in d.ino && q in d.ino && p in t.ino && q in t.ino
    && (t.ino[p] == t.ino[q] <==> d.ino[p] == d.ino[q])
  }

  lemma StandingEntry(ign: IgnoreList, layer: Layer, i: nat, p: Path) returns (j: nat)
    requires i <= |layer| && Stands(ign, layer, i, p)
    ensures j < i && layer[j].name == p && !layer[j].body.SpecialBody?
  {
    hide Erased;
    j :| 0 <= j < i && layer[j].name == p && !layer[j].body.SpecialBody? && !Erased(ign, layer, j, i, p);
  }

  lemma FileStands(ign: IgnoreList, a: Nodes, d: Disk, layer: Layer, i: nat, t: Tree, p: Path)
    requires Snapshot(ign, d, layer) && i <= |layer| && Reached(ign, false, a, d, layer, i, t)
    requires Made(ign, d, layer, i, p)
    ensures p in t.nodes && p in t.ino && t.ino[p] < t.next
  {
    hide Stands, Erased, Expect, Faithful, Sane, Hidden;
    var j := StandingEntry(ign, layer, i, p);
    assert VisibleName(ign, layer[j].name);
    VisibleReached(ign, false, a, d, layer, i, t, p);
    ExpectPresent(ign, a, d, layer, i, p);
  }

  /** A file that stands after an entry that is not its own stood before, and the entry did not disturb it. */
  lemma FileSpared(ign: IgnoreList, d: Disk, layer: Layer, i: nat, q: Path)
    requires Snapshot(ign, d, layer) && i < |layer| && Made(ign, d, layer, i + 1, q) && layer[i].name != q
    ensures Made(ign, d, layer, i, q) && Spared(ign, layer[i], q)
  {
    hide Stands, Erased, Erases, Faithful, Sane, Visible;
    StandsNext(ign, layer, i, q);
    if !IsMarker(layer[i].name) {
      EntryKind(ign, d, layer, i);
      SaneIsClosed(d);
      if Below(layer[i].name, q) {
        PresentAbove(d.nodes, layer[i].name, q);
      }
    }
  }

  lemma SaneIsClosed(d: Disk)
    requires Sane(d)
    ensures Closed(d.nodes)
  {
  }

  /** The entry's own file lands in the right class. */
  lemma OwnClass(ign: IgnoreList, a: Nodes, d: Disk, layer: Layer, i: nat, t: Tree, r: Tree, q: Path)
    requires Snapshot(ign, d, layer) && i < |layer| && LinkFound(ign, a, d, layer, i)
    requires SameClasses(ign, d, layer, i, t) && InodesMeant(ign, layer[i], t, Done(r))
    requires Made(ign, d, layer, i + 1, layer[i].name) && Made(ign, d, layer, i + 1, q) && q != layer[i].name
    requires q in t.ino && t.ino[q] < t.next
    ensures Matched(d, r, layer[i].name, q) && Matched(d, r, q, layer[i].name)
  {
    hide Stands, Faithful, Sane, LinkFound, LinkedFrom;
    var e := layer[i];
    FileSpared(ign, d, layer, i, q);
    EntryKind(ign, d, layer, i);
    if e.body.HardlinkBody? {
      OriginalMade(ign, a, d, layer, i);
      assert Matched(d, t, e.body.original, q);
    } else {
      var j := StandingEntry(ign, layer, i, q);
      ContentFirst(d, layer, i, j);
    }
  }

  lemma OriginalMade(ign: IgnoreList, a: Nodes, d: Disk, layer: Layer, i: nat)
    requires Snapshot(ign, d, layer) && i < |layer| && LinkFound(ign, a, d, layer, i)
    requires layer[i].body.HardlinkBody? && Made(ign, d, layer, i + 1, layer[i].name)
    ensures var o := layer[i].body.original; Made(ign, d, layer, i, o) && d.ino[o] == d.ino[layer[i].name]
  {
    hide Stands, Erased, Faithful, Sane, Visible;
    OriginalEntry(d, layer, i);
    if !IsMarker(layer[i].body.original) {
      DescribedUnlinked(d, layer, i, i, layer[i].body.original);
    }
  }

  lemma ContentFirst(d: Disk, layer: Layer, i: nat, j: nat)
    requires Faithful(d, layer) && j < i < |layer| && !IsMarker(layer[i].name) && !layer[i].body.HardlinkBody?
    requires !IsMarker(layer[j].name) && layer[j].name in d.ino
    ensures layer[i].name in d.ino && d.ino[layer[j].name] != d.ino[layer[i].name]
  {
    ShownEntry(d, layer, i);
  }

  lemma PairInClass(ign: IgnoreList, a: Nodes, d: Disk, layer: Layer, i: nat, t: Tree, r: Tree, p: Path, q: Path)
    requires Snapshot(ign, d, layer) && i < |layer| && Reached(ign, false, a, d, layer, i, t)
    requires LinkFound(ign, a, d, layer, i)
    requires SameClasses(ign, d, layer, i, t) && InodesMeant(ign, layer[i], t, Done(r))
    requires Made(ign, d, layer, i + 1, p) && Made(ign, d, layer, i + 1, q)
    ensures Matched(d, r, p, q)
  {
    hide Snapshot, Stands, LinkFound, LinkedFrom, Reached, Erases;
    var own := layer[i].name;
    if p != own && q != own {
      FileSpared(ign, d, layer, i, p);
      FileSpared(ign, d, layer, i, q);
      assert Matched(d, t, p, q);
    } else if p == q {
      OwnStands(ign, d, layer, i, t, r);
    } else {
      var other := if p == own then q else p;
      FileSpared(ign, d, layer, i, other);
      FileStands(ign, a, d, layer, i, t, other);
      OwnClass(ign, a, d, layer, i, t, r, other);
    }
  }

  lemma OwnStands(ign: IgnoreList, d: Disk, layer: Layer, i: nat, t: Tree, r: Tree)
    requires Snapshot(ign, d, layer) && i < |layer| && InodesMeant(ign, layer[i], t, Done(r))
    requires Made(ign, d, layer, i + 1, layer[i].name)
    ensures layer[i].name in r.ino
  {
    hide Faithful, Sane, Visible, Erases, Erased;
    EntryKind(ign, d, layer, i);
    StandsNext(ign, layer, i, layer[i].name);
    OwnEntryPromised(ign, map[], d, layer, i);
  }

  /** Each entry keeps the classes and puts its own file into the right one. */
  lemma ClassesKept(ign: IgnoreList, a: Nodes, d: Disk, layer: Layer, i: nat, t: Tree, r: Tree)
    requires Snapshot(ign, d, layer) && i < |layer| && Reached(ign, false, a, d, layer, i, t)
    requires LinkFound(ign, a, d, layer, i)
    requires SameClasses(ign, d, layer, i, t) && InodesMeant(ign, layer[i], t, Done(r))
    ensures SameClasses(ign, d, layer, i + 1, r)
  {
    hide Snapshot, Made, Reached, LinkFound, InodesMeant, Matched;
    forall p, q | Made(ign, d, layer, i + 1, p) && Made(ign, d, layer, i + 1, q)
      ensures Matched(d, r, p, q)
    {
      PairInClass(ign, a, d, layer, i, t, r, p, q);
    }
  }

  lemma ApplyNext(ign: IgnoreList, a: Tree, layer: Layer, i: nat)
    requires 0 < i <= |layer| && ApplyLayer(ign, false, a, layer[..i - 1]).Done?
    ensures ApplyLayer(ign, false, a, layer[..i])
         == ApplyEntry(ign, false, ApplyLayer(ign, false, a, layer[..i - 1]).tree, layer[i - 1])
  {
    assert layer[..i][..i - 1] == layer[..i - 1];
  }

  lemma {:induction false} ClassesThroughout(ign: IgnoreList, a: Tree, d: Disk, layer: Layer, i: nat)
    requires Snapshot(ign, d, layer) && i <= |layer| && Good(a)
    requires LinksGiveWay(ign, a.nodes, d, layer) && Steady(ign, layer) && LinksFound(ign, a.nodes, d, layer, i)
    ensures ApplyLayer(ign, false, a, layer[..i]).Done?
    ensures SameClasses(ign, d, layer, i, ApplyLayer(ign, false, a, layer[..i]).tree)
  {
    if i > 0 {
      hide Snapshot, LinkGivesWay, SteadyAt, LinkFound, SameClasses, Reached, Meant, InodesMeant;
      ClassesThroughout(ign, a, d, layer, i - 1);
      LayerMeant(ign, false, a, d, layer, i - 1);
      ApplyNext(ign, a, layer, i);
      var t := ApplyLayer(ign, false, a, layer[..i - 1]).tree;
      var r := ApplyEntry(ign, false, t, layer[i - 1]);
      EntryMeant(ign, false, a.nodes, d, layer, i - 1, t);
      MeantIsDone(ign, false, a.nodes, d, layer[i - 1], t, r);
      ClassesKept(ign, a.nodes, d, layer, i - 1, t, r.tree);
    }
  }

  /**
   * Hard links survive the round trip: extraction fails exactly for want of an original, and two files
   * that the layer puts on the disk share an inode afterwards exactly when they shared one before.
   */
  lemma HardLinksSurvive(ign: IgnoreList, a: Tree, d: Disk, layer: Layer)
    requires Snapshot(ign, d, layer) && Good(a) && LinksGiveWay(ign, a.nodes, d, layer) && Steady(ign, layer)
    ensures var r := ApplyLayer(ign, false, a, layer);
      && (r.Done? <==> LinksFound(ign, a.nodes, d, layer, |layer|))
      && (r.Done? ==> SameClasses(ign, d, layer, |layer|, r.tree))
  {
    hide Snapshot, LinksGiveWay, Steady, LinksFound, SameClasses;
    assert layer[..|layer|] == layer;
    LayerMeant(ign, false, a, d, layer, |layer|);
    if LinksFound(ign, a.nodes, d, layer, |layer|) {
      ClassesThroughout(ign, a, d, layer, |layer|);
    }
  }
}

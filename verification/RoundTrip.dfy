/** Extracting the layer of a snapshot onto the old tree gives the new one. */
module RoundTrip {
  import opened Options
  import opened Paths
  import opened IgnoreLists
  import opened Disks
  import opened Extraction
  import opened ExtractionSteps
  import opened Changesets
  import opened LayerMeaning

  /** An original that is visible in one of two agreeing trees is the same in the other. */
  lemma OriginalAgrees(ign: IgnoreList, a: Nodes, b: Nodes, d: Disk, layer: Layer, i: nat)
    requires i < |layer| && Snapshot(ign, d, layer) && Agree(ign, a, b) && KeepableAt(ign, layer, i)
    requires !IsMarker(layer[i].name)
    ensures EntryNode(a, d, layer[i]) == EntryNode(b, d, layer[i])
    ensures LinkFound(ign, a, d, layer, i) <==> LinkFound(ign, b, d, layer, i)
  {
    hide Erased, Stands, Faithful, Hidden;
    if LinksSkipped(d, layer[i]) {
      var o := layer[i].body.original;
      OriginalEntry(d, layer, i);
      var j :| 0 <= j < i && layer[j] == TarEntry(o, BodyOf(d.nodes[o]));
      assert VisibleName(ign, layer[j].name);
      assert At(a, o) == At(b, o);
    }
  }

  lemma {:induction false} ExpectAgrees(ign: IgnoreList, a: Nodes, b: Nodes, d: Disk, layer: Layer, i: nat, q: Path)
    requires i <= |layer| && Snapshot(ign, d, layer) && Keepable(ign, layer) && Agree(ign, a, b) && !Hidden(ign, q)
    ensures Expect(ign, a, d, layer, i, q) == Expect(ign, b, d, layer, i, q)
  {
    hide Snapshot, KeepableAt, EntryNode;
    if i > 0 {
      ExpectAgrees(ign, a, b, d, layer, i - 1, q);
      if !IsMarker(layer[i - 1].name) {
        OriginalAgrees(ign, a, b, d, layer, i - 1);
      }
    }
  }

  lemma {:induction false} ExpectSomewhere(ign: IgnoreList, a: Nodes, d: Disk, layer: Layer, i: nat, q: Path)
    requires i <= |layer| && Expect(ign, a, d, layer, i, q).Some?
    ensures q in a || q in d.nodes
  {
    hide EntryNode, Erases;
    if i > 0 && Expect(ign, a, d, layer, i - 1, q).Some? {
      ExpectSomewhere(ign, a, d, layer, i - 1, q);
    }
  }

  /** Trees that a layer cannot tell apart let the same links give way. */
  lemma LinksGiveWayAgrees(ign: IgnoreList, a: Nodes, b: Nodes, d: Disk, layer: Layer)
    requires Snapshot(ign, d, layer) && Keepable(ign, layer) && Agree(ign, a, b) && LinksGiveWay(ign, a, d, layer)
    ensures LinksGiveWay(ign, b, d, layer)
  {
    hide Snapshot, Keepable, Agree, Expect, GivesWay, Hidden;
    forall i | 0 <= i < |layer| ensures LinkGivesWay(ign, b, d, layer, i) {
      assert LinkGivesWay(ign, a, d, layer, i);
      forall q ensures q in MeantTree(ign, a, d, layer, i) <==> q in MeantTree(ign, b, d, layer, i) {
        MeantTreesAgree(ign, a, b, d, layer, i, q);
      }
      forall q | q in MeantTree(ign, a, d, layer, i) ensures MeantTree(ign, a, d, layer, i)[q] == MeantTree(ign, b, d, layer, i)[q] {
        MeantTreesAgree(ign, a, b, d, layer, i, q);
      }
      assert MeantTree(ign, a, d, layer, i) == MeantTree(ign, b, d, layer, i);
    }
  }

  lemma MeantTreesAgree(ign: IgnoreList, a: Nodes, b: Nodes, d: Disk, layer: Layer, i: nat, q: Path)
    requires Snapshot(ign, d, layer) && Keepable(ign, layer) && Agree(ign, a, b) && i <= |layer|
    ensures At(MeantTree(ign, a, d, layer, i), q) == At(MeantTree(ign, b, d, layer, i), q)
  {
    hide Snapshot, Keepable, Agree, Expect, Hidden;
    if !Hidden(ign, q) {
      ExpectAgrees(ign, a, b, d, layer, i, q);
      if Expect(ign, a, d, layer, i, q).Some? {
        ExpectSomewhere(ign, a, d, layer, i, q);
        ExpectSomewhere(ign, b, d, layer, i, q);
      }
    }
  }

  /** A layer does the same to trees it cannot tell apart, whether its marker files are kept or not. */
  lemma LayerRespectsAgreement(ign: IgnoreList, keep: bool, s: Tree, t: Tree, d: Disk, layer: Layer)
    requires Snapshot(ign, d, layer) && Good(s) && Good(t) && Agree(ign, s.nodes, t.nodes)
    requires LinksGiveWay(ign, s.nodes, d, layer) && Steady(ign, layer) && Keepable(ign, layer)
    ensures var u, v := ApplyLayer(ign, false, s, layer), ApplyLayer(ign, keep, t, layer);
      && (u.Done? <==> v.Done?)
      && (u.Done? ==> Good(u.tree) && Good(v.tree) && Agree(ign, u.tree.nodes, v.tree.nodes))
  {
    LinksGiveWayAgrees(ign, s.nodes, t.nodes, d, layer);
    hide Snapshot, LinksGiveWay, Steady, KeepableAt, Expect, LinkFound, Hidden, ApplyLayer, Good;
    LayerMeant(ign, false, s, d, layer, |layer|);
    LayerMeant(ign, keep, t, d, layer, |layer|);
    assert layer[..|layer|] == layer;
    forall i | 0 <= i < |layer| ensures LinkFound(ign, s.nodes, d, layer, i) <==> LinkFound(ign, t.nodes, d, layer, i) {
      if IsMarker(layer[i].name) {
        MarkersFind(ign, s.nodes, d, layer, i);
        MarkersFind(ign, t.nodes, d, layer, i);
      } else {
        OriginalAgrees(ign, s.nodes, t.nodes, d, layer, i);
      }
    }
    if LinksFound(ign, s.nodes, d, layer, |layer|) {
      var s', t' := ApplyLayer(ign, false, s, layer).tree, ApplyLayer(ign, keep, t, layer).tree;
      forall q | !Hidden(ign, q) ensures At(s'.nodes, q) == At(t'.nodes, q) {
        VisibleReached(ign, false, s.nodes, d, layer, |layer|, s', q);
        VisibleReached(ign, keep, t.nodes, d, layer, |layer|, t', q);
        ExpectAgrees(ign, s.nodes, t.nodes, d, layer, |layer|, q);
      }
    }
  }

  lemma MarkersFind(ign: IgnoreList, a: Nodes, d: Disk, layer: Layer, i: nat)
    requires i < |layer| && IsMarker(layer[i].name)
    ensures LinkFound(ign, a, d, layer, i)
  {
  }

  // ---------------------------------------------------------------------------------------------
  // What the layer of a snapshot means
  // ---------------------------------------------------------------------------------------------

  /** The layer is a true and complete account of how the disk differs from the old tree. */
  ghost predicate SnapshotOf(ign: IgnoreList, a: Nodes, d: Disk, layer: Layer) {
    Snapshot(ign, d, layer) && ChangesWritten(ign, a, d, layer) && DeletionsWritten(ign, a, d, layer)
  }

  lemma AccountIsTrue(ign: IgnoreList, a: Nodes, d: Disk, layer: Layer)
    requires SnapshotOf(ign, a, d, layer)
    ensures Snapshot(ign, d, layer)
  {
  }

  /** The shortest prefix of an absent path that is absent itself. */
  lemma {:induction false} TopmostAbsent(nodes: Nodes, q: Path) returns (w: Path)
    requires ROOT in nodes && q !in nodes
    ensures w <= q && w != [] && w !in nodes && Parent(w) in nodes
    decreases |q|
  {
    if Parent(q) in nodes {
      w := q;
    } else {
      w := TopmostAbsent(nodes, Parent(q));
      assert Parent(q) <= q;
      PrefixTransitive(w, Parent(q), q);
    }
  }

  /** Whiteout minimisation loses nothing: every deleted path is cleared away by some entry. */
  lemma DeletedCleared(ign: IgnoreList, a: Nodes, d: Disk, layer: Layer, q: Path)
    requires SnapshotOf(ign, a, d, layer) && Closed(a)
    requires SkippedBack(ign, a, d, layer) && NothingHeldBack(ign, a, d.nodes)
    requires q in a && q !in d.nodes && !Hidden(ign, q)
    ensures ClearedUpTo(ign, layer, |layer|, q)
  {
    hide Faithful, Visible, SkippedBack, ChangesWritten, Ignored, Marked;
    var w := TopmostAbsent(d.nodes, q);
    HiddenBelow(ign, w, q);
    PresentAbove(a, w, q);
    if IsDir(d.nodes, Parent(w)) {
      var j :| 0 <= j < |layer| && WhitesOut(layer[j], w);
      assert Clears(ign, layer[j], q);
    } else {
      ParentReplaced(ign, a, d, layer, w, q);
    }
  }

  /** A directory that became something else takes its old content with it. */
  lemma ParentReplaced(ign: IgnoreList, a: Nodes, d: Disk, layer: Layer, w: Path, q: Path)
    requires Snapshot(ign, d, layer) && Closed(a) && w <= q && w != [] && w in a && !Hidden(ign, w)
    requires ChangesWritten(ign, a, d, layer) && SkippedBack(ign, a, d, layer)
    requires Parent(w) in d.nodes && !d.nodes[Parent(w)].Dir?
    ensures ClearedUpTo(ign, layer, |layer|, q)
  {
    hide Faithful, Sane, Visible;
    var u := Parent(w);
    assert u <= w;
    HiddenBelow(ign, u, w);
    HiddenExact(ign, u);
    PresentAbove(a, u, w);
    var j: nat;
    if d.nodes[u].Special? {
      assert LinkedFrom(d, layer, |layer|, u) != u;
      j := LinkedEntry(d, layer, |layer|, u);
    } else {
      assert Written(layer, |layer|, u);
      j :| 0 <= j < |layer| && layer[j].name == u;
    }
    EntryKind(ign, d, layer, j);
    PrefixTransitive(u, w, q);
    assert Clears(ign, layer[j], q);
  }

  /** A deleted path that holds an ignore entry is cleared by nothing. */
  lemma HeldBackStays(ign: IgnoreList, d: Disk, layer: Layer, w: Path)
    requires Snapshot(ign, d, layer) && w != [] && w !in d.nodes && IsDir(d.nodes, Parent(w)) && HoldsIgnored(ign, w)
    ensures !ClearedUpTo(ign, layer, |layer|, w)
  {
    hide Faithful, Sane;
    assert Closed(d.nodes) by { SaneClosed(d); }
    forall j | 0 <= j < |layer| ensures !Clears(ign, layer[j], w) {
      var p := Subject(layer[j]);
      assert VisibleName(ign, layer[j].name);
      if Below(p, w) {
        if IsMarker(layer[j].name) {
          HoldsAbove(ign, p, w);
        } else {
          EntryKind(ign, d, layer, j);
          if p != w {
            assert p <= Parent(w);
            PresentAbove(d.nodes, p, Parent(w));
          }
        }
      }
    }
  }

  lemma SaneClosed(d: Disk)
    requires Sane(d)
    ensures Closed(d.nodes)
  {
  }

  lemma HoldsAbove(ign: IgnoreList, p: Path, w: Path)
    requires HoldsIgnored(ign, w) && p <= w && p != [] && w != []
    ensures HoldsIgnored(ign, p)
  {
    var e :| e in ign && HasFilepathPrefix(e, w);
    PrefixTransitive(p, w, e);
    assert HasFilepathPrefix(e, p);
  }

  /** At a visible path of the new disk the layer means the new node, if nothing is lost on the way. */
  lemma PresentMeant(ign: IgnoreList, a: Nodes, d: Disk, layer: Layer, q: Path)
    requires Snapshot(ign, d, layer) && ChangesWritten(ign, a, d, layer) && q in d.nodes && !Hidden(ign, q)
    requires SkippedBack(ign, a, d, layer) && NothingErased(ign, d, layer)
    ensures Expect(ign, a, d, layer, |layer|, q) == Some(d.nodes[q])
  {
    hide Erased, Expect, Faithful, Sane, Visible, Hidden;
    var n := |layer|;
    HiddenExact(ign, q);
    ExpectPresent(ign, a, d, layer, n, q);
    if !Stands(ign, layer, n, q) && At(a, q) != Some(d.nodes[q]) {
      if d.nodes[q].Special? {
        assert At(a, LinkedFrom(d, layer, n, q)) == Some(d.nodes[q]);
        LinkedStands(ign, d, layer, n, q);
      } else {
        WrittenStands(ign, d, layer, n, q);
      }
    }
  }

  /** A file that is linked by an entry, and is not taken away, stands. */
  lemma LinkedStands(ign: IgnoreList, d: Disk, layer: Layer, i: nat, q: Path)
    requires i <= |layer| && LinkedFrom(d, layer, i, q) != q
    ensures Stands(ign, layer, i, q) || Erased(ign, layer, 0, i, q)
  {
    hide Erases;
    var j := LinkedEntry(d, layer, i, q);
    if Erased(ign, layer, j, i, q) {
      ErasedLonger(ign, layer, 0, j, i, i, q);
    }
  }

  lemma WrittenStands(ign: IgnoreList, d: Disk, layer: Layer, i: nat, q: Path)
    requires Snapshot(ign, d, layer) && i <= |layer| && Written(layer, i, q) && q in d.nodes && !d.nodes[q].Special?
    ensures Stands(ign, layer, i, q) || Erased(ign, layer, 0, i, q)
  {
    hide Erases, Snapshot;
    var j :| 0 <= j < i && layer[j].name == q;
    EntryKind(ign, d, layer, j);
    if Erased(ign, layer, j, i, q) {
      ErasedLonger(ign, layer, 0, j, i, i, q);
    }
  }

  /** The meaning of the whole layer is the new disk if nothing stands in the way. */
  lemma MeaningIsNewDisk(ign: IgnoreList, a: Nodes, d: Disk, layer: Layer)
    requires SnapshotOf(ign, a, d, layer) && Closed(a)
    requires NothingErased(ign, d, layer) && SkippedBack(ign, a, d, layer) && NothingHeldBack(ign, a, d.nodes)
    ensures forall q :: !Hidden(ign, q) ==> Expect(ign, a, d, layer, |layer|, q) == At(d.nodes, q)
  {
    hide Snapshot, Expect, NothingErased, SkippedBack, NothingHeldBack, ChangesWritten, DeletionsWritten, Hidden;
    forall q | !Hidden(ign, q) ensures Expect(ign, a, d, layer, |layer|, q) == At(d.nodes, q) {
      if q in d.nodes {
        PresentMeant(ign, a, d, layer, q);
      } else {
        ExpectAbsent(ign, a, d, layer, |layer|, q);
        if q in a {
          DeletedCleared(ign, a, d, layer, q);
        }
      }
    }
  }

  /** What the layer means at a file that it skips or links to a skipped one tells what that was. */
  lemma BackIfMeant(ign: IgnoreList, a: Nodes, d: Disk, layer: Layer, q: Path)
    requires Snapshot(ign, d, layer) && q in d.nodes && !Hidden(ign, q)
    requires Expect(ign, a, d, layer, |layer|, q) == Some(d.nodes[q])
    ensures Erased(ign, layer, 0, |layer|, q) ==> Stands(ign, layer, |layer|, q)
    ensures d.nodes[q].Special? || LinkedFrom(d, layer, |layer|, q) != q ==>
      At(a, LinkedFrom(d, layer, |layer|, q)) == Some(d.nodes[q])
  {
    hide Erased, Expect, Faithful, Sane, Visible, Hidden;
    var n := |layer|;
    HiddenExact(ign, q);
    ExpectPresent(ign, a, d, layer, n, q);
    if LinkedFrom(d, layer, n, q) != q {
      LinkedStands(ign, d, layer, n, q);
    } else if d.nodes[q].Special? && Stands(ign, layer, n, q) {
      var j :| 0 <= j < n && layer[j].name == q && !layer[j].body.SpecialBody? && !Erased(ign, layer, j, n, q);
      EntryKind(ign, d, layer, j);
      LinkedSource(d, layer, j, n);
    }
  }

  /** The entry that links a file to a skipped one is its only entry. */
  lemma {:induction false} LinkedSource(d: Disk, layer: Layer, j: nat, i: nat)
    requires Sane(d) && Faithful(d, layer) && j < i <= |layer| && !IsMarker(layer[j].name) && layer[j].body.HardlinkBody?
    ensures layer[j].name in d.nodes && d.nodes[layer[j].name].Special? ==> LinksSkipped(d, layer[j])
    ensures LinksSkipped(d, layer[j]) ==> layer[j].body.original != layer[j].name
    ensures LinksSkipped(d, layer[j]) ==> LinkedFrom(d, layer, i, layer[j].name) == layer[j].body.original
  {
    hide Sane, Faithful;
    OriginalEntry(d, layer, j);
    if j < i - 1 {
      LinkedSource(d, layer, j, i - 1);
      if layer[i - 1].name == layer[j].name {
        OneEntry(d, layer, i - 1, j);
      }
    }
  }

  lemma NewDiskIsMeantOnly(ign: IgnoreList, a: Nodes, d: Disk, layer: Layer)
    requires Snapshot(ign, d, layer)
    requires forall q :: !Hidden(ign, q) ==> Expect(ign, a, d, layer, |layer|, q) == At(d.nodes, q)
    ensures NothingErased(ign, d, layer) && SkippedBack(ign, a, d, layer) && NothingHeldBack(ign, a, d.nodes)
  {
    hide Snapshot, Expect, Erased, Stands, Hidden, HoldsIgnored, LinkedFrom;
    forall q | q in d.nodes && !Hidden(ign, q)
      ensures Erased(ign, layer, 0, |layer|, q) ==> Stands(ign, layer, |layer|, q)
      ensures d.nodes[q].Special? || LinkedFrom(d, layer, |layer|, q) != q ==>
        At(a, LinkedFrom(d, layer, |layer|, q)) == Some(d.nodes[q])
    {
      BackIfMeant(ign, a, d, layer, q);
    }
    forall w | w in a && w !in d.nodes && !Hidden(ign, w) && w != [] && IsDir(d.nodes, Parent(w))
      ensures !HoldsIgnored(ign, w)
    {
      ExpectAbsent(ign, a, d, layer, |layer|, w);
      if HoldsIgnored(ign, w) {
        HeldBackStays(ign, d, layer, w);
      }
    }
  }

  /**
   * Apply undoes diff. Extraction of a complete snapshot layer onto the old tree succeeds if and only if
   * each link finds its original. It yields the new disk on every visible path if and only if moreover
   * what marker files among the entries take away is written again, what extraction skips was in the old
   * tree, under its name or the one it is linked to, and no whiteout would delete a directory that holds
   * an ignore entry.
   */
  lemma ApplyUndoesDiff(ign: IgnoreList, a: Tree, d: Disk, layer: Layer)
    requires SnapshotOf(ign, a.nodes, d, layer) && Good(a) && LinksGiveWay(ign, a.nodes, d, layer) && Steady(ign, layer)
    ensures var r := ApplyLayer(ign, false, a, layer);
      && (r.Done? <==> LinksFound(ign, a.nodes, d, layer, |layer|))
      && (r.Done? ==> Good(r.tree))
      && (r.Done? && Agree(ign, r.tree.nodes, d.nodes)
          <==> LinksFound(ign, a.nodes, d, layer, |layer|) && NothingErased(ign, d, layer)
               && SkippedBack(ign, a.nodes, d, layer) && NothingHeldBack(ign, a.nodes, d.nodes))
  {
    hide ChangesWritten, DeletionsWritten, Snapshot, LinksGiveWay, Steady, LinksFound, NothingErased, SkippedBack, NothingHeldBack;
    hide Expect, ApplyLayer, Hidden;
    LayerMeant(ign, false, a, d, layer, |layer|);
    assert layer[..|layer|] == layer;
    var r := ApplyLayer(ign, false, a, layer);
    if r.Done? {
      forall q | !Hidden(ign, q) ensures At(r.tree.nodes, q) == Expect(ign, a.nodes, d, layer, |layer|, q) {
        VisibleReached(ign, false, a.nodes, d, layer, |layer|, r.tree, q);
      }
      if NothingErased(ign, d, layer) && SkippedBack(ign, a.nodes, d, layer) && NothingHeldBack(ign, a.nodes, d.nodes) {
        MeaningIsNewDisk(ign, a.nodes, d, layer);
      }
      if Agree(ign, r.tree.nodes, d.nodes) {
        NewDiskIsMeantOnly(ign, a.nodes, d, layer);
      }
    }
  }

  /** What a marker file among the entries takes away is lost, unless a later entry writes it again. */
  lemma ErasedIsLost(ign: IgnoreList, a: Tree, d: Disk, layer: Layer, i: nat, q: Path)
    requires Snapshot(ign, d, layer) && Good(a) && LinksGiveWay(ign, a.nodes, d, layer) && Steady(ign, layer)
    requires i < |layer| && Erases(ign, layer[i], q) && !Hidden(ign, q)
    requires forall j :: i < j < |layer| ==> layer[j].name != q
    ensures var r := ApplyLayer(ign, false, a, layer); r.Done? ==> q !in r.tree.nodes
  {
    hide LinksGiveWay, Steady, Expect, Faithful, Sane, Hidden, Erases;
    var n := |layer|;
    LayerMeant(ign, false, a, d, layer, n);
    assert layer[..n] == layer;
    var r := ApplyLayer(ign, false, a, layer);
    if r.Done? {
      VisibleReached(ign, false, a.nodes, d, layer, n, r.tree, q);
      HiddenExact(ign, q);
      if q in d.nodes {
        ErasedNoMore(ign, layer, i, q);
        ExpectPresent(ign, a.nodes, d, layer, n, q);
      } else {
        assert Clears(ign, layer[i], q) by { MarkersErase(ign, layer[i], q); }
        ExpectAbsent(ign, a.nodes, d, layer, n, q);
      }
    }
  }

  lemma MarkersErase(ign: IgnoreList, e: TarEntry, q: Path)
    requires Erases(ign, e, q)
    ensures IsMarker(e.name) && Clears(ign, e, q)
  {
  }

  lemma ErasedNoMore(ign: IgnoreList, layer: Layer, i: nat, q: Path)
    requires i < |layer| && Erases(ign, layer[i], q) && !IsMarker(q)
    requires forall j :: i < j < |layer| ==> layer[j].name != q
    ensures Erased(ign, layer, 0, |layer|, q) && !Stands(ign, layer, |layer|, q)
  {
    hide Erases, Stands;
    assert !Stands(ign, layer, |layer|, q) by {
      forall j | 0 <= j < |layer| && layer[j].name == q ensures Erased(ign, layer, j, |layer|, q) {
        assert j <= i;
      }
      NotStanding(ign, layer, |layer|, q);
    }
  }

  lemma NotStanding(ign: IgnoreList, layer: Layer, i: nat, q: Path)
    requires i <= |layer| && forall j :: 0 <= j < i && layer[j].name == q ==> Erased(ign, layer, j, i, q)
    ensures !Stands(ign, layer, i, q)
  {
    hide Erased;
  }

  // ---------------------------------------------------------------------------------------------
  // Conditions that can be seen on the disk
  // ---------------------------------------------------------------------------------------------

  /** Harmless marker files take nothing away. */
  lemma HarmlessErasesNothing(ign: IgnoreList, d: Disk, layer: Layer, j: nat, i: nat, q: Path)
    requires Sane(d) && MarkersHarmless(ign, d, layer) && i <= |layer| && q in d.nodes
    ensures !Erased(ign, layer, j, i, q)
  {
    hide Ignored, HoldsIgnored;
    if Erased(ign, layer, j, i, q) {
      var k :| j <= k < i && Erases(ign, layer[k], q);
      assert Harmless(ign, d.nodes, layer[k].name);
      PresentAbove(d.nodes, Whited(layer[k].name), q);
    }
  }

  lemma HarmlessIsSteady(ign: IgnoreList, d: Disk, layer: Layer)
    requires Sane(d) && Faithful(d, layer) && MarkersHarmless(ign, d, layer)
    ensures Steady(ign, layer) && NothingErased(ign, d, layer)
    ensures forall i :: 0 <= i < |layer| ==> SteadyAt(ign, layer, i)
  {
    hide Erased, MarkersHarmless, Sane, Shows;
    forall i | 0 <= i < |layer| ensures SteadyAt(ign, layer, i) {
      forall j | 0 <= j < i && layer[j].name < layer[i].name ensures !Erased(ign, layer, j, i, layer[j].name) {
        assert EntryOk(d, layer, i);
        var q := layer[j].name;
        assert q == layer[i].name[..|q|];
        assert IsDir(d.nodes, q);
        HarmlessErasesNothing(ign, d, layer, j, i, q);
      }
    }
    forall q | q in d.nodes ensures !Erased(ign, layer, 0, |layer|, q) {
      HarmlessErasesNothing(ign, d, layer, 0, |layer|, q);
    }
  }

  /** Without new pipes, devices and sockets, and links to marker files, the skipped original is what the link is to be. */
  lemma SourceIsSame(ign: IgnoreList, a: Nodes, d: Disk, layer: Layer, i: nat, q: Path)
    requires Snapshot(ign, d, layer) && NoNewSpecial(ign, a, d.nodes) && MarkersUnlinked(ign, d)
    requires i <= |layer| && q in d.nodes && !Hidden(ign, q) && (d.nodes[q].Special? || LinkedFrom(d, layer, i, q) != q)
    ensures At(a, LinkedFrom(d, layer, i, q)) == Some(d.nodes[q]) && d.nodes[q].Special?
  {
    hide Hidden, Faithful;
    if LinkedFrom(d, layer, i, q) != q {
      var k := LinkedEntry(d, layer, i, q);
      var o := layer[k].body.original;
      OriginalEntry(d, layer, k);
      var j :| 0 <= j < k && layer[j] == TarEntry(o, BodyOf(d.nodes[o]));
      assert VisibleName(ign, layer[j].name);
    }
  }

  /** Files that extraction skips all come back if they are only where they were and no link leads to a marker. */
  lemma KeptSkippedBack(ign: IgnoreList, a: Nodes, d: Disk, layer: Layer)
    requires Snapshot(ign, d, layer) && NoNewSpecial(ign, a, d.nodes) && MarkersUnlinked(ign, d)
    ensures SkippedBack(ign, a, d, layer)
  {
    hide Snapshot, NoNewSpecial, MarkersUnlinked, Hidden, LinkedFrom;
    forall q | q in d.nodes && !Hidden(ign, q) && (d.nodes[q].Special? || LinkedFrom(d, layer, |layer|, q) != q)
      ensures At(a, LinkedFrom(d, layer, |layer|, q)) == Some(d.nodes[q])
    {
      SourceIsSame(ign, a, d, layer, |layer|, q);
    }
  }

  /** If all that is skipped comes back, and marker files take nothing away, every link has found its original. */
  lemma BackIsFound(ign: IgnoreList, a: Nodes, d: Disk, layer: Layer)
    requires Snapshot(ign, d, layer) && SkippedBack(ign, a, d, layer) && MarkersHarmless(ign, d, layer)
    ensures LinksFound(ign, a, d, layer, |layer|)
  {
    hide Erased, Stands, MarkersHarmless, Faithful, Sane, Hidden;
    forall j | 0 <= j < |layer| ensures LinkFound(ign, a, d, layer, j) {
      var e := layer[j];
      if !IsMarker(e.name) && e.body.HardlinkBody? {
        var o := e.body.original;
        OriginalEntry(d, layer, j);
        LinkedSource(d, layer, j, |layer|);
        assert VisibleName(ign, e.name);
        HarmlessErasesNothing(ign, d, layer, 0, j, o);
        if !Skipped(d, o) {
          DescribedStands(ign, d, layer, j, o);
        }
      }
    }
  }

  /** What lasts is the same kind of object at any time. */
  lemma LastingMeant(ign: IgnoreList, a: Nodes, d: Disk, layer: Layer, i: nat, q: Path)
    requires Snapshot(ign, d, layer) && NoNewSpecial(ign, a, d.nodes) && MarkersUnlinked(ign, d)
    requires MarkersHarmless(ign, d, layer) && i <= |layer| && q in Lasting(ign, a, d.nodes)
    ensures q in MeantTree(ign, a, d, layer, i)
    ensures SameKind(Lasting(ign, a, d.nodes)[q], MeantTree(ign, a, d, layer, i)[q])
  {
    hide Expect, Erased, Stands, Faithful, Sane, Visible, Hidden, MarkersHarmless, NoNewSpecial, MarkersUnlinked;
    HiddenExact(ign, q);
    ExpectPresent(ign, a, d, layer, i, q);
    HarmlessErasesNothing(ign, d, layer, 0, i, q);
    if LinkedFrom(d, layer, i, q) != q {
      SourceIsSame(ign, a, d, layer, i, q);
    }
  }

  /** Links that lead over what lasts to a file give way when their directory comes. */
  lemma YieldGivesWay(ign: IgnoreList, a: Nodes, d: Disk, layer: Layer)
    requires Snapshot(ign, d, layer) && NoNewSpecial(ign, a, d.nodes) && MarkersUnlinked(ign, d)
    requires MarkersHarmless(ign, d, layer) && LinksYield(ign, a, d.nodes)
    ensures LinksGiveWay(ign, a, d, layer)
  {
    hide Snapshot, NoNewSpecial, MarkersUnlinked, MarkersHarmless, LinksYield;
    forall i | 0 <= i < |layer| ensures LinkGivesWay(ign, a, d, layer, i) {
      if !IsMarker(layer[i].name) && layer[i].body.DirBody? {
        OneYieldGivesWay(ign, a, d, layer, i);
      }
    }
  }

  lemma OneYieldGivesWay(ign: IgnoreList, a: Nodes, d: Disk, layer: Layer, i: nat)
    requires Snapshot(ign, d, layer) && NoNewSpecial(ign, a, d.nodes) && MarkersUnlinked(ign, d)
    requires MarkersHarmless(ign, d, layer) && LinksYield(ign, a, d.nodes)
    requires i < |layer| && !IsMarker(layer[i].name) && layer[i].body.DirBody?
    ensures GivesWay(MeantTree(ign, a, d, layer, i), layer[i].name)
  {
    hide Expect, Erased, Stands, Faithful, Sane, Hidden, MarkersHarmless, NoNewSpecial, MarkersUnlinked, Follow;
    var p, v := layer[i].name, MeantTree(ign, a, d, layer, i);
    assert VisibleName(ign, p);
    EntryKind(ign, d, layer, i);
    OwnEntryPromised(ign, a, d, layer, i);
    ExpectPresent(ign, a, d, layer, i, p);
    if p in v && v[p].Symlink? {
      var l := Lasting(ign, a, d.nodes)[p := a[p]];
      forall q | q in l ensures q in v && SameKind(l[q], v[q]) {
        if q != p {
          LastingMeant(ign, a, d, layer, i, q);
        }
      }
      assert GivesWay(l, p);
      FollowInMore(l, v, [], p, KERNEL_LINKS);
      assert SameKind(l[StatPath(l, p).path], v[StatPath(l, p).path]);
    }
  }

  /** What the old and the new disk must be like for all of that. */
  ghost predicate Undisturbed(ign: IgnoreList, a: Nodes, d: Disk) {
    && LinksYield(ign, a, d.nodes) && NoNewSpecial(ign, a, d.nodes) && NothingHeldBack(ign, a, d.nodes)
    && MarkersUnlinked(ign, d)
  }

  /**
   * The same with conditions that can be seen on the disks: the layer of a snapshot takes the old tree to
   * the new one, if no marker file that it carries has its path on the new disk.
   */
  lemma HarmlessUndoesDiff(ign: IgnoreList, a: Tree, d: Disk, layer: Layer)
    requires SnapshotOf(ign, a.nodes, d, layer) && Good(a)
    requires Undisturbed(ign, a.nodes, d) && MarkersHarmless(ign, d, layer)
    ensures var r := ApplyLayer(ign, false, a, layer); r.Done? && Good(r.tree) && Agree(ign, r.tree.nodes, d.nodes)
  {
    hide Faithful, Sane, Visible, ChangesWritten, DeletionsWritten, LinksYield, NoNewSpecial, NothingHeldBack;
    hide MarkersUnlinked, MarkersHarmless, Steady, NothingErased, LinksFound, SkippedBack, LinksGiveWay, ApplyLayer, Agree;
    HarmlessIsSteady(ign, d, layer);
    KeptSkippedBack(ign, a.nodes, d, layer);
    BackIsFound(ign, a.nodes, d, layer);
    YieldGivesWay(ign, a.nodes, d, layer);
    ApplyUndoesDiff(ign, a, d, layer);
  }
}

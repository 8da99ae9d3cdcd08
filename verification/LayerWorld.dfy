/** The cache protocol over real layers: file systems are visible trees, and layers are extracted onto them. */
module LayerWorlds {
  import opened Options
  import opened Paths
  import opened IgnoreLists
  import opened Disks
  import opened Extraction
  import opened ExtractionSteps
  import opened Changesets
  import opened LayerMeaning
  import opened RoundTrip
  import StageBuilders

  /** What a layer can tell of a tree. */
  function Seen(ign: IgnoreList, nodes: Nodes): Nodes {
    map p | p in nodes && !Hidden(ign, p) :: nodes[p]
  }

  /** A tree with nothing hidden in it. */
  ghost predicate Sight(ign: IgnoreList, nodes: Nodes) {
    Closed(nodes) && forall p :: p in nodes ==> !Hidden(ign, p)
  }

  /** The tree with some inodes; extraction never looks at them. */
  function TreeOf(nodes: Nodes): Tree {
    Tree(nodes, map p | p in nodes :: 0, 1)
  }

  /** Extraction as it is done for a cached layer, seen through the ignore list. */
  function Applied(ign: IgnoreList, nodes: Nodes, layer: Layer): Nodes {
    var r := ApplyLayer(ign, true, TreeOf(nodes), layer);
    if r.Done? then Seen(ign, r.tree.nodes) else nodes
  }

  lemma AgreeingLookTheSame(ign: IgnoreList, a: Nodes, b: Nodes)
    ensures Agree(ign, a, b) <==> Seen(ign, a) == Seen(ign, b)
  {
    forall q ensures At(Seen(ign, a), q) == if Hidden(ign, q) then None else At(a, q) {
    }
    forall q ensures At(Seen(ign, b), q) == if Hidden(ign, q) then None else At(b, q) {
    }
    hide Hidden;
    if Agree(ign, a, b) {
      forall q ensures At(Seen(ign, a), q) == At(Seen(ign, b), q) {
      }
    } else {
      var q :| !Hidden(ign, q) && At(a, q) != At(b, q);
      assert At(Seen(ign, a), q) != At(Seen(ign, b), q);
    }
  }

  lemma SeenIsSight(ign: IgnoreList, nodes: Nodes)
    requires Proper(ign) && Closed(nodes)
    ensures Sight(ign, Seen(ign, nodes))
  {
    var seen := Seen(ign, nodes);
    assert !Hidden(ign, ROOT);
    forall p | p in seen && p != [] ensures Parent(p) in seen && seen[Parent(p)].Dir? {
      assert Parent(p) <= p;
      HiddenBelow(ign, Parent(p), p);
    }
  }

  /** The layer takes the old tree to the new disk, on all that it can tell. */
  ghost predicate Accounts(ign: IgnoreList, a: Nodes, d: Disk, layer: Layer) {
    && SnapshotOf(ign, a, d, layer) && LinksGiveWay(ign, a, d, layer) && Steady(ign, layer) && Keepable(ign, layer)
    && LinksFound(ign, a, d, layer, |layer|) && NothingErased(ign, d, layer)
    && SkippedBack(ign, a, d, layer) && NothingHeldBack(ign, a, d.nodes)
  }

  lemma AppliedIsNew(ign: IgnoreList, a: Nodes, d: Disk, layer: Layer)
    requires Sight(ign, a) && Accounts(ign, a, d, layer)
    ensures Applied(ign, a, layer) == Seen(ign, d.nodes)
  {
    var t := TreeOf(a);
    assert Good(t) && t.nodes == a && Agree(ign, t.nodes, t.nodes);
    hide Good, SnapshotOf, LinksGiveWay, Steady, Keepable, LinksFound, NothingErased, SkippedBack, NothingHeldBack, ApplyLayer, Seen, Snapshot;
    ApplyUndoesDiff(ign, t, d, layer);
    AccountIsTrue(ign, a, d, layer);
    LayerRespectsAgreement(ign, true, t, t, d, layer);
    var u, v := ApplyLayer(ign, false, t, layer).tree, ApplyLayer(ign, true, t, layer).tree;
    AgreeingLookTheSame(ign, u.nodes, v.nodes);
    AgreeingLookTheSame(ign, u.nodes, d.nodes);
  }

  /** The world in which layers are those of the snapshot code, whatever commands do. */
  function Layered(ign: IgnoreList, w: StageBuilders.World<Nodes, Layer>): StageBuilders.World<Nodes, Layer> {
    w.(apply := (nodes, layer) => Applied(ign, nodes, layer), isEmpty := (layer: Layer) => layer == [])
  }

  /** The command leaves a disk, and its layer, if it has one, is a complete account of the difference. */
  ghost predicate LeavesDisk(ign: IgnoreList, w: StageBuilders.World<Nodes, Layer>, c: StageBuilders.Command<Layer>,
                             s: StageBuilders.State<Nodes>, d: Disk)
  {
    && Closed(d.nodes) && StageBuilders.Exec(w, c, s).fs == Seen(ign, d.nodes)
    && match StageBuilders.Snapped(w, c, s)
       case None => Seen(ign, d.nodes) == s.fs
       case Some(layer) => Accounts(ign, s.fs, d, layer)
  }

  lemma LeftDiskIsRight(ign: IgnoreList, w: StageBuilders.World<Nodes, Layer>, c: StageBuilders.Command<Layer>,
                        s: StageBuilders.State<Nodes>, d: Disk)
    requires Proper(ign) && Sight(ign, s.fs) && LeavesDisk(ign, Layered(ign, w), c, s, d)
    ensures StageBuilders.SnapshotRight(Layered(ign, w), c, s)
    ensures Sight(ign, StageBuilders.Exec(Layered(ign, w), c, s).fs)
  {
    SeenIsSight(ign, d.nodes);
    match StageBuilders.Snapped(Layered(ign, w), c, s)
    case None =>
    case Some(layer) =>
      hide Accounts, Sight, StageBuilders.Exec, StageBuilders.Snapped;
      AppliedIsNew(ign, s.fs, d, layer);
      NothingExtracted(ign, s.fs);
  }

  lemma NothingExtracted(ign: IgnoreList, a: Nodes)
    requires Sight(ign, a)
    ensures Applied(ign, a, []) == a
  {
    assert Seen(ign, a) == a;
  }

  /**
   * The snapshots of a stage are right as the cache protocol needs them, if every command leaves a disk
   * that its layer accounts for.
   */
  lemma {:induction false} DisksMakeSnapshotsRight(ign: IgnoreList, w: StageBuilders.World<Nodes, Layer>,
                                                   cmds: seq<StageBuilders.Command<Layer>>, s: StageBuilders.State<Nodes>,
                                                   disks: seq<Disk>, n: nat)
    requires Proper(ign) && Sight(ign, s.fs) && |disks| == |cmds| && n <= |cmds|
    requires forall i :: 0 <= i < |cmds| ==>
      LeavesDisk(ign, Layered(ign, w), cmds[i], StageBuilders.StateAt(Layered(ign, w), cmds, s, i), disks[i])
    ensures Sight(ign, StageBuilders.StateAt(Layered(ign, w), cmds, s, n).fs)
    ensures forall i :: 0 <= i < n ==>
      StageBuilders.SnapshotRight(Layered(ign, w), cmds[i], StageBuilders.StateAt(Layered(ign, w), cmds, s, i))
  {
    hide Sight, LeavesDisk, StageBuilders.Exec, StageBuilders.SnapshotRight, Layered;
    if n > 0 {
      DisksMakeSnapshotsRight(ign, w, cmds, s, disks, n - 1);
      LeftDiskIsRight(ign, w, cmds[n - 1], StageBuilders.StateAt(Layered(ign, w), cmds, s, n - 1), disks[n - 1]);
    }
  }

  /**
   * The two parts together: over real layers, a stage whose commands leave disks that their layers
   * account for gives the same config and the same visible tree with any right cache as without one.
   */
  lemma CachedStageOfLayers(ign: IgnoreList, w: StageBuilders.World<Nodes, Layer>, cache: map<string, Layer>,
                            cmds: seq<StageBuilders.Command<Layer>>, after: seq<StageBuilders.Command<Layer>>,
                            s: StageBuilders.State<Nodes>, bare: Nodes, keys: seq<string>, crossStage: bool, disks: seq<Disk>)
    requires Proper(ign) && Sight(ign, s.fs) && |disks| == |cmds|
    requires forall i :: 0 <= i < |cmds| ==>
      LeavesDisk(ign, Layered(ign, w), cmds[i], StageBuilders.StateAt(Layered(ign, w), cmds, s, i), disks[i])
    requires StageBuilders.Fresh(cmds)
    requires StageBuilders.WorkdirsLevel(Layered(ign, w), cmds, after, s, StageBuilders.StartOf(after, crossStage, s, bare))
    requires StageBuilders.Optimized(Layered(ign, w), cache, cmds, StageBuilders.ViewOf(s), keys, after)
    requires StageBuilders.CacheRight(Layered(ign, w), cache, cmds, s, keys)
    ensures var v, t, n := Layered(ign, w), StageBuilders.StartOf(after, crossStage, s, bare), |cmds|;
      && StageBuilders.StateAt(v, after, t, n).cfg == StageBuilders.StateAt(v, cmds, s, n).cfg
      && StageBuilders.Flatten(v, s.fs, StageBuilders.LayersAt(v, after, t, n))
         == (if n == 0 then s.fs else Seen(ign, disks[n - 1].nodes))
  {
    var v, n := Layered(ign, w), |cmds|;
    DisksMakeSnapshotsRight(ign, w, cmds, s, disks, n);
    if n > 0 {
      LastState(v, cmds, s, n);
      assert LeavesDisk(ign, v, cmds[n - 1], StageBuilders.StateAt(v, cmds, s, n - 1), disks[n - 1]);
    }
    hide StageBuilders.WorkdirsLevel, StageBuilders.StateAt, StageBuilders.Optimized, StageBuilders.CacheRight, StageBuilders.LayersAt, StageBuilders.Flatten, Layered;
    assert StageBuilders.SnapshotsRight(v, cmds, s);
    StageBuilders.CacheRefinement(v, cache, cmds, after, s, bare, keys, crossStage);
    NoState(v, cmds, s);
  }

  lemma NoState(w: StageBuilders.World<Nodes, Layer>, cmds: seq<StageBuilders.Command<Layer>>, s: StageBuilders.State<Nodes>)
    ensures StageBuilders.StateAt(w, cmds, s, 0) == s
  {
  }

  lemma LastState(w: StageBuilders.World<Nodes, Layer>, cmds: seq<StageBuilders.Command<Layer>>, s: StageBuilders.State<Nodes>, n: nat)
    requires 0 < n <= |cmds|
    ensures StageBuilders.StateAt(w, cmds, s, n) == StageBuilders.Exec(w, cmds[n - 1], StageBuilders.StateAt(w, cmds, s, n - 1))
  {
  }
}

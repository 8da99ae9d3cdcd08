/** Extraction and ignored paths, for layers that may name any path: such entries are passed over. */
module IgnoredPaths {
  import opened Options
  import opened Paths
  import opened IgnoreLists
  import opened Disks
  import opened Extraction
  import opened ExtractionSteps
  import opened Changesets

  /** The path is at or below an ignore entry. */
  ghost predicate AtOrBelowEntry(ign: IgnoreList, p: Path) {
    exists g :: g in ign && g <= p
  }

  /** The path is at or above one. */
  ghost predicate AtOrAboveEntry(ign: IgnoreList, p: Path) {
    exists g :: g in ign && p <= g
  }

  /** A file that is not ignored, nor linked to an ignored one. */
  ghost predicate FileHeeded(ign: IgnoreList, e: TarEntry) {
    !AtOrBelowEntry(ign, e.name) && (e.body.HardlinkBody? ==> !AtOrBelowEntry(ign, e.body.original))
  }

  /**
   * Extraction does something about the entry: such a file, or a whiteout of a path that is neither at,
   * nor below, nor above an ignore entry.
   */
  ghost predicate Heeded(ign: IgnoreList, e: TarEntry) {
    if IsMarker(e.name) then
      !AtOrBelowEntry(ign, Whited(e.name)) && (Whited(e.name) == ROOT || !AtOrAboveEntry(ign, Whited(e.name)))
    else FileHeeded(ign, e)
  }

  lemma FileNotHeeded(ign: IgnoreList, t: Tree, e: TarEntry)
    requires Proper(ign) && !FileHeeded(ign, e)
    ensures ExtractFile(ign, t, e) == Done(t)
  {
    hide Ignored;
    IgnoredExact(ign, e.name);
    if e.body.HardlinkBody? {
      IgnoredExact(ign, e.body.original);
    }
  }

  lemma FileNotIgnored(ign: IgnoreList, e: TarEntry)
    requires Proper(ign) && FileHeeded(ign, e)
    ensures !Ignored(ign, e.name) && (e.body.HardlinkBody? ==> !Ignored(ign, e.body.original))
  {
    hide Ignored;
    IgnoredExact(ign, e.name);
    if e.body.HardlinkBody? {
      IgnoredExact(ign, e.body.original);
    }
  }

  lemma NotHeeded(ign: IgnoreList, keep: bool, t: Tree, e: TarEntry)
    requires Proper(ign) && !Heeded(ign, e)
    ensures ApplyEntry(ign, keep, t, e) == Done(t)
  {
    hide Ignored, HoldsIgnored;
    if IsMarker(e.name) {
      IgnoredExact(ign, Whited(e.name));
      HoldsIgnoredExact(ign, Whited(e.name));
    } else {
      FileNotHeeded(ign, t, e);
    }
  }

  /** The entries that extraction does something about. */
  ghost function HeededOnly(ign: IgnoreList, layer: Layer): Layer {
    if layer == [] then []
    else HeededOnly(ign, layer[..|layer| - 1]) + if Heeded(ign, layer[|layer| - 1]) then [layer[|layer| - 1]] else []
  }

  /** Extracting a layer is extracting the entries that are not passed over, whatever the tree is. */
  lemma {:induction false} PassedOver(ign: IgnoreList, keep: bool, t: Tree, layer: Layer)
    requires Proper(ign)
    ensures ApplyLayer(ign, keep, t, layer) == ApplyLayer(ign, keep, t, HeededOnly(ign, layer))
    decreases |layer|
  {
    hide ApplyEntry, Heeded;
    if layer != [] {
      var rest, e := layer[..|layer| - 1], layer[|layer| - 1];
      PassedOver(ign, keep, t, rest);
      if Heeded(ign, e) {
        var heeded := HeededOnly(ign, rest) + [e];
        assert heeded[..|heeded| - 1] == HeededOnly(ign, rest);
      } else {
        assert HeededOnly(ign, layer) == HeededOnly(ign, rest);
        if ApplyLayer(ign, keep, t, rest).Done? {
          NotHeeded(ign, keep, ApplyLayer(ign, keep, t, rest).tree, e);
        }
      }
    }
  }

  // ---------------------------------------------------------------------------------------------
  // What becomes of an ignored path
  // ---------------------------------------------------------------------------------------------

  /** The entry is written where its name says: above it are only directories, and no link stands for a directory. */
  ghost predicate Straight(t: Tree, e: TarEntry) {
    && Plain(e.name) && Unlinked(t.nodes, e.name)
    && (e.name == ROOT ==> e.body.DirBody?)
    && (IsMarker(e.name) ==> Whited(e.name) != ROOT && !(Whited(e.name) <= Parent(e.name)))
    && (e.body.DirBody? ==> GivesWay(if IsMarker(e.name) then Without(t, Whited(e.name)).nodes else t.nodes, e.name))
  }

  /** A file that is no directory takes a name above the path. */
  ghost predicate TakesAbove(ign: IgnoreList, keep: bool, e: TarEntry, q: Path) {
    && Heeded(ign, e) && FileHeeded(ign, e) && (IsMarker(e.name) ==> keep)
    && !e.body.DirBody? && !e.body.SpecialBody? && e.name < q
  }

  /** A file that is put into a ready place leaves everything but what it replaces. */
  ghost predicate OnlyReplaces(t: Tree, p: Path, r: Result) {
    r.Done? ==> Good(r.tree) && forall q :: q != p ==> At(r.tree.nodes, q) == if p <= q then None else At(t.nodes, q)
  }

  lemma FileReplaces(t: Tree, p: Path, n: Node)
    requires Ready(t, p) && p != [] && (n.File? || n.Symlink?)
    ensures var r := Replace(t, p, n);
      OnlyReplaces(t, p, r) && r.Done? && At(r.tree.nodes, p) == Some(n)
  {
    Replaced(t, p, n);
  }

  lemma LinkReplaces(t: Tree, original: Path, p: Path)
    requires Ready(t, p) && p != []
    ensures Clear(t, p).Done? && OnlyReplaces(t, p, LinkAt(Clear(t, p).tree, original, p))
  {
    Cleared(t, p);
    hide Ready, Good, LinkAt, Clear;
    LinkCreates(Clear(t, p).tree, original, p);
  }

  lemma LinkCreates(c: Tree, original: Path, p: Path)
    requires Ready(c, p) && p != [] && p !in c.nodes
    ensures var r := LinkAt(c, original, p);
      r.Done? ==> Good(r.tree) && p in r.tree.nodes && r.tree.nodes == c.nodes[p := r.tree.nodes[p]]
  {
    PlaceLiteral(c.nodes, p);
    hide Place;
    var r := LinkAt(c, original, p);
    if r.Done? {
      var o := Lstat(c.nodes, original).path;
      hide Lstat;
      CreateKeeps(c, p, c.nodes[o]);
      assert r.tree.nodes == c.nodes[p := c.nodes[o]];
    }
  }

  /** An ignored path is above no name that is not ignored, so that none of its parents is missing because of it. */
  lemma MakingParentsLeaves(ign: IgnoreList, t: Tree, p: Path, attr: int, r: Tree, q: Path)
    requires ParentsMade(t, p, attr, r) && Proper(ign) && Ignored(ign, q) && !Ignored(ign, p)
    ensures At(r.nodes, q) == At(t.nodes, q)
  {
    if q < p {
      HiddenBelow(ign, q, p);
    }
  }

  /** What a directory entry leaves: its own directory, and those above it that were missing. */
  lemma DirLeaves(ign: IgnoreList, t: Tree, p: Path, attr: int, q: Path)
    requires Good(t) && Plain(p) && Unlinked(t.nodes, p) && GivesWay(t.nodes, p)
    requires Proper(ign) && Ignored(ign, q) && !Ignored(ign, p)
    ensures var r := MkdirAllWithPermissions(t, p, attr);
      r.Done? && Good(r.tree) && At(r.tree.nodes, q) == At(t.nodes, q)
  {
    hide Ignored, ParentsMade, GivesWay;
    if p in t.nodes {
      ClosedLiteral(t.nodes, p);
      DirMade(t, p, attr);
    } else {
      StatUnlinkedAbsent(t.nodes, p);
      assert p != [] by { assert ROOT in t.nodes; }
      ParentsMakeable(t, p, attr);
      var made := MkdirAll(t, Parent(p), attr).tree;
      MakingParentsLeaves(ign, t, p, attr, made, q);
      LastDirMade(t, p, attr, made);
    }
  }

  lemma MadeLast(t: Tree, p: Path, attr: int, made: Tree)
    requires p != [] && Plain(p) && p !in t.nodes && StatPath(t.nodes, p) == Missing
    requires MkdirAll(t, Parent(p), attr) == Done(made) && ParentsMade(t, p, attr, made)
    ensures p !in made.nodes && MkdirAll(t, p, attr) == Done(Create(made, p, Dir(attr)))
    ensures Ready(Create(made, p, Dir(attr)), p)
  {
    FreeOnceMade(t, p, attr, made);
    hide StatPath, Place, Good, Plain;
    CreateLiteral(made, p, Dir(attr));
  }

  lemma CreateLiteral(t: Tree, p: Path, n: Node)
    requires Literal(t.nodes, p)
    ensures Literal(Create(t, p, n).nodes, p)
  {
    forall k | 0 <= k < |p| ensures IsDir(Create(t, p, n).nodes, p[..k]) {
      assert IsDir(t.nodes, p[..k]);
    }
  }

  lemma LastDirMade(t: Tree, p: Path, attr: int, made: Tree)
    requires p != [] && Plain(p) && p !in t.nodes && StatPath(t.nodes, p) == Missing
    requires MkdirAll(t, Parent(p), attr) == Done(made) && ParentsMade(t, p, attr, made)
    ensures var r := MkdirAllWithPermissions(t, p, attr);
      r.Done? && Good(r.tree) && r.tree.nodes == made.nodes[p := Dir(attr)]
  {
    hide ParentsMade, Closed, StatPath, MkdirAll, SetAttr;
    MadeLast(t, p, attr, made);
    var c := Create(made, p, Dir(attr));
    DirSet(c, p, attr);
    assert c.nodes[p := Dir(attr)] == c.nodes;
  }

  /**
   * What a file, a symbolic link or a hard link leaves, where only directories stand above its name:
   * itself, nothing of what it replaces, the directories that were missing, and everything else.
   */
  lemma FileWritten(ign: IgnoreList, t: Tree, e: TarEntry, q: Path)
    requires Proper(ign) && Good(t) && Plain(e.name) && Unlinked(t.nodes, e.name) && e.name != ROOT && FileHeeded(ign, e)
    requires !e.body.DirBody? && !e.body.SpecialBody?
    ensures var r := ExtractFile(ign, t, e);
      && (!e.body.HardlinkBody? ==> r.Done?)
      && (r.Done? ==>
            && Good(r.tree)
            && (e.body.RegBody? ==> At(r.tree.nodes, e.name) == Some(File(e.body.attr, e.body.data)))
            && (e.body.SymlinkBody? ==> At(r.tree.nodes, e.name) == Some(Symlink(e.body.target)))
            && (q != e.name ==> At(r.tree.nodes, q)
                                == if e.name <= q then None
                                   else if q < e.name && q !in t.nodes then Some(Dir(0x1ed)) else At(t.nodes, q)))
  {
    hide Ignored, ParentsMade, Unlinked, Good, Plain;
    var p := e.name;
    FileNotIgnored(ign, e);
    ParentsMakeable(t, p, DIR_0755);
    ParentEnsured(t, p);
    var made := MkdirAll(t, Parent(p), DIR_0755).tree;
    MadeReady(t, p, made, q);
    match e.body {
      case HardlinkBody(original) =>
        LinkReplaces(made, original, p);
      case RegBody(attr, data) =>
        FileReplaces(made, p, File(attr, data));
      case SymlinkBody(target) =>
        FileReplaces(made, p, Symlink(target));
    }
  }

  /** A file that extraction looks at leaves an ignored path alone, or takes a name above it. */
  lemma FileLeaves(ign: IgnoreList, t: Tree, e: TarEntry, q: Path)
    requires Proper(ign) && Good(t) && Plain(e.name) && Unlinked(t.nodes, e.name) && FileHeeded(ign, e) && Ignored(ign, q)
    requires (e.name == ROOT ==> e.body.DirBody?) && (e.body.DirBody? ==> GivesWay(t.nodes, e.name))
    ensures var r := ExtractFile(ign, t, e);
      r.Done? ==> && Good(r.tree)
                  && At(r.tree.nodes, q) == if !e.body.DirBody? && !e.body.SpecialBody? && e.name < q then None else At(t.nodes, q)
  {
    hide Ignored, Unlinked, GivesWay, Good, Plain, FileHeeded, ParentsMade;
    FileNotIgnored(ign, e);
    if e.body.DirBody? {
      DirLeaves(ign, t, e.name, e.body.attr, q);
    } else if !e.body.SpecialBody? {
      FileWritten(ign, t, e, q);
      hide ExtractFile;
      if q <= e.name {
        HiddenBelow(ign, q, e.name);
      }
    }
  }

  lemma MadeReady(t: Tree, p: Path, r: Tree, q: Path)
    requires ParentsMade(t, p, DIR_0755, r) && Plain(p)
    ensures Ready(r, p)
    ensures At(r.nodes, q) == if q < p && q !in t.nodes then Some(Dir(0x1ed)) else At(t.nodes, q)
  {
  }

  /** One entry, at an ignored path. */
  lemma EntryLeaves(ign: IgnoreList, keep: bool, t: Tree, e: TarEntry, q: Path)
    requires Proper(ign) && Good(t) && Ignored(ign, q) && (Heeded(ign, e) ==> Straight(t, e))
    ensures var r := ApplyEntry(ign, keep, t, e);
      r.Done? ==> Good(r.tree) && At(r.tree.nodes, q) == if TakesAbove(ign, keep, e, q) then None else At(t.nodes, q)
  {
    hide Ignored, HoldsIgnored, Good, Unlinked, GivesWay, Plain, ExtractFile;
    if !Heeded(ign, e) {
      NotHeeded(ign, keep, t, e);
    } else if !IsMarker(e.name) {
      FileLeaves(ign, t, e, q);
    } else {
      WhiteoutLeaves(ign, keep, t, e, q);
    }
  }

  /** A whiteout that is heeded is not above an ignored path. */
  lemma WhiteoutSpares(ign: IgnoreList, w: Path, q: Path)
    requires Proper(ign) && Ignored(ign, q) && !Ignored(ign, w) && !HoldsIgnored(ign, w) && w != ROOT
    ensures !(w <= q)
  {
    hide Ignored, HoldsIgnored;
    IgnoredExact(ign, q);
    IgnoredExact(ign, w);
    HoldsIgnoredExact(ign, w);
    var g :| g in ign && g <= q;
    if w <= q {
      PrefixesCompare(g, w, q);
    }
  }

  lemma WhiteoutLeaves(ign: IgnoreList, keep: bool, t: Tree, e: TarEntry, q: Path)
    requires Proper(ign) && Good(t) && Ignored(ign, q) && Heeded(ign, e) && Straight(t, e) && IsMarker(e.name)
    ensures var r := ApplyEntry(ign, keep, t, e);
      r.Done? ==> Good(r.tree) && At(r.tree.nodes, q) == if TakesAbove(ign, keep, e, q) then None else At(t.nodes, q)
  {
    hide Ignored, HoldsIgnored, Good, GivesWay, Plain, ExtractFile, RemoveAll;
    var w := Whited(e.name);
    assert forall k :: 0 <= k < |w| ==> w[..k] == e.name[..k];
    IgnoredExact(ign, w);
    HoldsIgnoredExact(ign, w);
    WhitedOut(t, w);
    var s := Without(t, w);
    WhiteoutSpares(ign, w, q);
    assert At(s.nodes, q) == At(t.nodes, q);
    if keep {
      if FileHeeded(ign, e) {
        FileLeaves(ign, s, e, q);
      } else {
        FileNotHeeded(ign, s, e);
      }
    }
  }

  /** Each entry that is heeded is straight when it comes. */
  ghost predicate AllStraight(ign: IgnoreList, keep: bool, t: Tree, layer: Layer) {
    forall i :: 0 <= i < |layer| ==> StraightAt(ign, keep, t, layer, i)
  }

  ghost predicate StraightAt(ign: IgnoreList, keep: bool, t: Tree, layer: Layer, i: nat)
    requires i < |layer|
  {
    var r := ApplyLayer(ign, keep, t, layer[..i]);
    r.Done? && Heeded(ign, layer[i]) ==> Straight(r.tree, layer[i])
  }

  lemma StraightBefore(ign: IgnoreList, keep: bool, t: Tree, layer: Layer)
    requires layer != [] && AllStraight(ign, keep, t, layer)
    ensures AllStraight(ign, keep, t, layer[..|layer| - 1])
  {
    hide Heeded, Straight, ApplyLayer;
    var rest := layer[..|layer| - 1];
    forall i | 0 <= i < |rest| ensures StraightAt(ign, keep, t, rest, i) {
      assert StraightAt(ign, keep, t, layer, i);
      assert rest[..i] == layer[..i] && rest[i] == layer[i];
    }
  }

  ghost predicate TakenAbove(ign: IgnoreList, keep: bool, layer: Layer, q: Path) {
    exists i :: 0 <= i < |layer| && TakesAbove(ign, keep, layer[i], q)
  }

  lemma TakenNext(ign: IgnoreList, keep: bool, layer: Layer, q: Path)
    requires layer != []
    ensures TakenAbove(ign, keep, layer, q)
       <==> TakenAbove(ign, keep, layer[..|layer| - 1], q) || TakesAbove(ign, keep, layer[|layer| - 1], q)
  {
    hide TakesAbove;
    var n, rest := |layer| - 1, layer[..|layer| - 1];
    if i :| 0 <= i < |layer| && TakesAbove(ign, keep, layer[i], q) {
      assert i < n ==> rest[i] == layer[i];
    }
    if i :| 0 <= i < |rest| && TakesAbove(ign, keep, rest[i], q) {
      assert layer[i] == rest[i];
    }
  }

  /**
   * Extraction of any layer leaves an ignored path as it is, marker files kept or not, unless a file that
   * is no directory takes a name above it, and then it is gone.
   */
  lemma {:induction false} IgnoredStay(ign: IgnoreList, keep: bool, t: Tree, layer: Layer, q: Path)
    requires Proper(ign) && Good(t) && Ignored(ign, q) && AllStraight(ign, keep, t, layer)
    ensures var r := ApplyLayer(ign, keep, t, layer);
      r.Done? ==> Good(r.tree) && At(r.tree.nodes, q) == if TakenAbove(ign, keep, layer, q) then None else At(t.nodes, q)
    decreases |layer|
  {
    hide Ignored, Good, Heeded, Straight, ApplyEntry, TakesAbove;
    if layer != [] {
      StraightBefore(ign, keep, t, layer);
      TakenNext(ign, keep, layer, q);
      assert StraightAt(ign, keep, t, layer, |layer| - 1);
      IgnoredStay(ign, keep, t, layer[..|layer| - 1], q);
      var r := ApplyLayer(ign, keep, t, layer[..|layer| - 1]);
      if r.Done? {
        EntryLeaves(ign, keep, r.tree, layer[|layer| - 1], q);
      }
    }
  }

  /** Each layer is straight when it comes. */
  ghost predicate LayersStraight(ign: IgnoreList, keep: bool, t: Tree, layers: seq<Layer>) {
    forall k :: 0 <= k < |layers| ==> LayerStraightAt(ign, keep, t, layers, k)
  }

  ghost predicate LayerStraightAt(ign: IgnoreList, keep: bool, t: Tree, layers: seq<Layer>, k: nat)
    requires k < |layers|
  {
    var r := ApplyLayers(ign, keep, t, layers[..k]);
    r.Done? ==> AllStraight(ign, keep, r.tree, layers[k])
  }

  ghost predicate TakenByAny(ign: IgnoreList, keep: bool, layers: seq<Layer>, q: Path) {
    exists k :: 0 <= k < |layers| && TakenAbove(ign, keep, layers[k], q)
  }

  lemma TakenByNext(ign: IgnoreList, keep: bool, layers: seq<Layer>, q: Path)
    requires layers != []
    ensures TakenByAny(ign, keep, layers, q)
       <==> TakenByAny(ign, keep, layers[..|layers| - 1], q) || TakenAbove(ign, keep, layers[|layers| - 1], q)
  {
    hide TakenAbove;
    var n, rest := |layers| - 1, layers[..|layers| - 1];
    if i :| 0 <= i < |layers| && TakenAbove(ign, keep, layers[i], q) {
      assert i < n ==> rest[i] == layers[i];
    }
    if i :| 0 <= i < |rest| && TakenAbove(ign, keep, rest[i], q) {
      assert layers[i] == rest[i];
    }
  }

  lemma LayersStraightBefore(ign: IgnoreList, keep: bool, t: Tree, layers: seq<Layer>)
    requires layers != [] && LayersStraight(ign, keep, t, layers)
    ensures LayersStraight(ign, keep, t, layers[..|layers| - 1])
  {
    hide AllStraight, ApplyLayers;
    var rest := layers[..|layers| - 1];
    forall k | 0 <= k < |rest| ensures LayerStraightAt(ign, keep, t, rest, k) {
      assert LayerStraightAt(ign, keep, t, layers, k);
      assert rest[..k] == layers[..k] && rest[k] == layers[k];
    }
  }

  /** The same for a whole image. */
  lemma {:induction false} IgnoredStayThroughout(ign: IgnoreList, keep: bool, t: Tree, layers: seq<Layer>, q: Path)
    requires Proper(ign) && Good(t) && Ignored(ign, q) && LayersStraight(ign, keep, t, layers)
    ensures var r := ApplyLayers(ign, keep, t, layers);
      r.Done? ==> Good(r.tree) && At(r.tree.nodes, q) == if TakenByAny(ign, keep, layers, q) then None else At(t.nodes, q)
    decreases |layers|
  {
    hide Ignored, Good, ApplyLayer, TakenAbove, AllStraight;
    if layers != [] {
      LayersStraightBefore(ign, keep, t, layers);
      TakenByNext(ign, keep, layers, q);
      assert LayerStraightAt(ign, keep, t, layers, |layers| - 1);
      IgnoredStayThroughout(ign, keep, t, layers[..|layers| - 1], q);
      var r := ApplyLayers(ign, keep, t, layers[..|layers| - 1]);
      if r.Done? {
        IgnoredStay(ign, keep, r.tree, layers[|layers| - 1], q);
      }
    }
  }

  // ---------------------------------------------------------------------------------------------
  // A name that leads through a link
  // ---------------------------------------------------------------------------------------------

  const HOSTS: Path := ["etc", "hosts"]

  function WithLink(m: map<Path, Node>): Nodes {
    map[[] := Dir(0), ["etc"] := Dir(0), ["l"] := Symlink(Target(true, ["etc"]))] + m
  }

  const LINKED: Tree := Tree(WithLink(map[HOSTS := File(0, "mounted")]), map[[] := 0, ["etc"] := 1, ["l"] := 2, HOSTS := 3], 4)
  const THROUGH: TarEntry := TarEntry(["l", "hosts"], RegBody(0, "image"))

  lemma LinkPlaces(m: map<Path, Node>)
    requires m.Keys <= {HOSTS}
    ensures var nodes := WithLink(m);
      && StatPath(nodes, ["l"]) == Found(["etc"]) && IsDir(nodes, ["etc"]) && Place(nodes, ["l", "hosts"]) == Found(HOSTS)
  {
    var nodes, l: Path := WithLink(m), ["l"];
    assert l[..0] == [] && l + [] == l && ["etc"] + [] == ["etc"];
    assert [] + ["etc"] == ["etc"] && ["etc"][1..] == [];
    assert Passable(nodes, ["etc"], []);
    assert Passable(nodes, [], ["etc"]);
    LinkLeads(nodes, l, []);
    assert Walked([], ["etc"]) == Walked(["etc"], []);
    var p: Path := ["l", "hosts"];
    assert Parent(p) == l && ["etc"] + [Base(p)] == HOSTS;
  }

  /** An entry whose name leads through a link to an ignored path is not passed over: the ignored file is replaced. */
  lemma NotStraight()
    ensures var r := ApplyLayer({HOSTS}, false, LINKED, [THROUGH]);
      && Ignored({HOSTS}, HOSTS) && r.Done? && !Straight(LINKED, THROUGH)
      && At(LINKED.nodes, HOSTS) == Some(File(0, "mounted")) && At(r.tree.nodes, HOSTS) == Some(File(0, "image"))
  {
    var ign: IgnoreList := {HOSTS};
    var t, p := LINKED, THROUGH.name;
    LinkPlaces(map[HOSTS := File(0, "mounted")]);
    LinkPlaces(map[]);
    IgnoredExact(ign, HOSTS);
    IgnoredExact(ign, p);
    assert Base(p) == "hosts" && "hosts"[0] == 'h' && !IsMarker(p);
    assert [THROUGH][..0] == [];
    var s := Without(t, HOSTS);
    assert s.nodes == WithLink(map[]) by {
      forall q | q in t.nodes ensures Below(HOSTS, q) <==> q == HOSTS {
      }
    }
    hide StatPath, Ignored;
    assert Parent(p) == ["l"];
    assert Clear(t, p) == Done(s);
    assert p[..1] == ["l"] && p[..1] in t.nodes;
  }
}

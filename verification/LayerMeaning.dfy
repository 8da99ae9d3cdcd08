/** What a snapshot layer means, entry by entry, and that its extraction does just that. */
module LayerMeaning {
  import opened Options
  import opened Paths
  import opened IgnoreLists
  import opened Disks
  import opened Extraction
  import opened ExtractionSteps
  import opened Changesets

  /** What an entry puts under its name: the node of the new disk, or what its skipped original is in the old tree. */
  ghost function EntryNode(a: Nodes, d: Disk, e: TarEntry): Option<Node> {
    if LinksSkipped(d, e) then At(a, e.body.original) else At(d.nodes, e.name)
  }

  /** The meaning of one entry at one path, after the OCI rules for applying a changeset. */
  ghost function StepAt(ign: IgnoreList, a: Nodes, d: Disk, e: TarEntry, q: Path, was: Option<Node>): Option<Node> {
    if IsMarker(e.name) then
      if Erases(ign, e, q) then None else was
    else if e.body.SpecialBody? then was
    else if q == e.name && q in d.nodes then EntryNode(a, d, e)
    else if !e.body.DirBody? && Below(e.name, q) then None
    else was
  }

  /** The meaning of the first `i` entries at one path. */
  ghost function Expect(ign: IgnoreList, a: Nodes, d: Disk, layer: Layer, i: nat, q: Path): Option<Node>
    requires i <= |layer|
  {
    if i == 0 then At(a, q)
    else StepAt(ign, a, d, layer[i - 1], q, Expect(ign, a, d, layer, i - 1, q))
  }

  /** The new disk and its layer, as the snapshot code leaves them. */
  ghost predicate Snapshot(ign: IgnoreList, d: Disk, layer: Layer) {
    Proper(ign) && Sane(d) && Faithful(d, layer) && Visible(ign, layer)
  }

  // ---------------------------------------------------------------------------------------------
  // Single entries
  // ---------------------------------------------------------------------------------------------

  lemma ShownEntry(d: Disk, layer: Layer, i: nat)
    requires Faithful(d, layer) && i < |layer| && !IsMarker(layer[i].name)
    ensures Shows(d, layer, i)
  {
    assert EntryOk(d, layer, i);
  }

  lemma OriginalEntry(d: Disk, layer: Layer, i: nat)
    requires Sane(d) && Faithful(d, layer) && i < |layer|
    requires !IsMarker(layer[i].name) && layer[i].body.HardlinkBody?
    ensures var e := layer[i]; var o := e.body.original;
      && o in d.nodes && o != e.name && e.name in d.nodes && o in d.ino && e.name in d.ino && d.ino[o] == d.ino[e.name]
      && d.nodes[o] == d.nodes[e.name] && !d.nodes[o].Dir? && Described(d, layer, i, o)
  {
    ShownEntry(d, layer, i);
    assert LinksBack(d, layer, i);
  }

  /** The kind of an entry is the kind of the node it describes, hard links aside. */
  lemma EntryKind(ign: IgnoreList, d: Disk, layer: Layer, i: nat)
    requires Snapshot(ign, d, layer) && i < |layer| && !IsMarker(layer[i].name)
    ensures layer[i].name in d.nodes
    ensures layer[i].body.DirBody? <==> d.nodes[layer[i].name].Dir?
    ensures layer[i].body.SpecialBody? <==> d.nodes[layer[i].name].Special? && !layer[i].body.HardlinkBody?
    ensures !layer[i].body.HardlinkBody? ==> layer[i].body == BodyOf(d.nodes[layer[i].name])
  {
    hide Faithful, Sane, Visible;
    ShownEntry(d, layer, i);
    if layer[i].body.HardlinkBody? {
      OriginalEntry(d, layer, i);
    }
  }

  lemma PresentAbove(nodes: Nodes, p: Path, q: Path)
    requires Closed(nodes) && q in nodes && p <= q
    ensures p in nodes && (p != q ==> nodes[p].Dir?)
  {
    assert p == q[..|p|];
    ClosedPrefix(nodes, q, |p|);
  }

  /** Files without a marker's name come once. */
  lemma OneEntry(d: Disk, layer: Layer, j: nat, k: nat)
    requires Faithful(d, layer) && j < |layer| && k < |layer|
    requires layer[j].name == layer[k].name && !IsMarker(layer[j].name)
    ensures j == k
  {
    ShownEntry(d, layer, j);
    ShownEntry(d, layer, k);
    assert !Written(layer, j, layer[j].name) && !Written(layer, k, layer[k].name);
  }

  // ---------------------------------------------------------------------------------------------
  // Erasing and standing
  // ---------------------------------------------------------------------------------------------

  lemma ErasedNext(ign: IgnoreList, layer: Layer, j: nat, i: nat, q: Path)
    requires j <= i < |layer|
    ensures Erased(ign, layer, j, i + 1, q) <==> Erased(ign, layer, j, i, q) || Erases(ign, layer[i], q)
  {
    hide Erases;
    if Erased(ign, layer, j, i + 1, q) && !Erases(ign, layer[i], q) {
      var k :| j <= k < i + 1 && Erases(ign, layer[k], q);
      assert k < i;
    }
  }

  lemma StandsNext(ign: IgnoreList, layer: Layer, i: nat, q: Path)
    requires i < |layer|
    ensures Stands(ign, layer, i + 1, q) <==>
      !Erases(ign, layer[i], q) && (Stands(ign, layer, i, q) || (layer[i].name == q && !layer[i].body.SpecialBody?))
  {
    hide Erases, Erased;
    forall j | 0 <= j <= i
      ensures Erased(ign, layer, j, i + 1, q) <==> Erased(ign, layer, j, i, q) || Erases(ign, layer[i], q)
    {
      ErasedNext(ign, layer, j, i, q);
    }
    NothingYet(ign, layer, i, q);
    assert Erased(ign, layer, i, i + 1, q) <==> Erases(ign, layer[i], q);
    if Stands(ign, layer, i + 1, q) {
      var j :| 0 <= j < i + 1 && layer[j].name == q && !layer[j].body.SpecialBody? && !Erased(ign, layer, j, i + 1, q);
      assert j < i ==> Stands(ign, layer, i, q);
    }
    if Stands(ign, layer, i, q) && !Erases(ign, layer[i], q) {
      var j :| 0 <= j < i && layer[j].name == q && !layer[j].body.SpecialBody? && !Erased(ign, layer, j, i, q);
      assert !Erased(ign, layer, j, i + 1, q);
    }
  }

  lemma NothingYet(ign: IgnoreList, layer: Layer, i: nat, q: Path)
    requires i <= |layer|
    ensures !Erased(ign, layer, i, i, q)
  {
  }

  lemma ErasedLonger(ign: IgnoreList, layer: Layer, j: nat, k: nat, i: nat, n: nat, q: Path)
    requires j <= k <= i <= n <= |layer| && Erased(ign, layer, k, i, q)
    ensures Erased(ign, layer, j, n, q)
  {
    hide Erases;
  }

  /** A file that has been described, and is not to be skipped, stands or has been taken away. */
  lemma DescribedStands(ign: IgnoreList, d: Disk, layer: Layer, i: nat, q: Path)
    requires i <= |layer| && Described(d, layer, i, q) && !d.nodes[q].Special?
    ensures Stands(ign, layer, i, q) || Erased(ign, layer, 0, i, q)
  {
    hide Erases;
    var j :| 0 <= j < i && layer[j] == TarEntry(q, BodyOf(d.nodes[q]));
    if Erased(ign, layer, j, i, q) {
      ErasedLonger(ign, layer, 0, j, i, i, q);
    }
  }

  /** The entry that links a file to a skipped one. */
  lemma {:induction false} LinkedEntry(d: Disk, layer: Layer, i: nat, q: Path) returns (j: nat)
    requires i <= |layer| && LinkedFrom(d, layer, i, q) != q
    ensures j < i && layer[j].name == q && LinksSkipped(d, layer[j])
    ensures LinkedFrom(d, layer, i, q) == layer[j].body.original
  {
    if layer[i - 1].name == q && LinksSkipped(d, layer[i - 1]) {
      j := i - 1;
    } else {
      j := LinkedEntry(d, layer, i - 1, q);
    }
  }

  /** A file that some entry describes is linked by none. */
  lemma DescribedUnlinked(d: Disk, layer: Layer, i: nat, n: nat, q: Path)
    requires Faithful(d, layer) && i <= |layer| && n <= |layer| && Described(d, layer, n, q) && !IsMarker(q)
    ensures LinkedFrom(d, layer, i, q) == q
  {
    if LinkedFrom(d, layer, i, q) != q {
      var k := LinkedEntry(d, layer, i, q);
      var j :| 0 <= j < n && layer[j] == TarEntry(q, BodyOf(d.nodes[q]));
      OneEntry(d, layer, j, k);
    }
  }

  /** A described pipe, device or socket never stands. */
  lemma SpecialNeverStands(ign: IgnoreList, d: Disk, layer: Layer, i: nat, n: nat, q: Path)
    requires Faithful(d, layer) && i <= |layer| && n <= |layer| && Described(d, layer, n, q) && !IsMarker(q)
    requires d.nodes[q].Special?
    ensures !Stands(ign, layer, i, q)
  {
    hide Erased;
    var j :| 0 <= j < n && layer[j] == TarEntry(q, BodyOf(d.nodes[q]));
    if Stands(ign, layer, i, q) {
      var k :| 0 <= k < i && layer[k].name == q && !layer[k].body.SpecialBody? && !Erased(ign, layer, k, i, q);
      OneEntry(d, layer, j, k);
    }
  }

  // ---------------------------------------------------------------------------------------------
  // The meaning of a layer in closed form
  // ---------------------------------------------------------------------------------------------

  /** An entry without a marker's name changes no path of the new disk but its own. */
  lemma StepSparesPresent(ign: IgnoreList, a: Nodes, d: Disk, layer: Layer, i: nat, q: Path, was: Option<Node>)
    requires Snapshot(ign, d, layer) && i < |layer| && q in d.nodes && layer[i].name != q && !IsMarker(layer[i].name)
    ensures StepAt(ign, a, d, layer[i], q, was) == was
  {
    EntryKind(ign, d, layer, i);
    if Below(layer[i].name, q) {
      PresentAbove(d.nodes, layer[i].name, q);
    }
  }

  /** What a path of the new disk is to hold after the first `i` entries. */
  ghost function Promised(ign: IgnoreList, a: Nodes, d: Disk, layer: Layer, i: nat, q: Path): Option<Node>
    requires i <= |layer|
  {
    if Stands(ign, layer, i, q) then
      if LinkedFrom(d, layer, i, q) != q then At(a, LinkedFrom(d, layer, i, q)) else At(d.nodes, q)
    else if Erased(ign, layer, 0, i, q) then None
    else At(a, q)
  }

  lemma StepPromised(ign: IgnoreList, a: Nodes, d: Disk, layer: Layer, i: nat, q: Path)
    requires Snapshot(ign, d, layer) && i < |layer| && q in d.nodes && !IsMarker(q)
    ensures StepAt(ign, a, d, layer[i], q, Promised(ign, a, d, layer, i, q)) == Promised(ign, a, d, layer, i + 1, q)
  {
    hide Snapshot, Erases, Erased, Stands, LinksSkipped;
    StandsNext(ign, layer, i, q);
    ErasedNext(ign, layer, 0, i, q);
    var was := Promised(ign, a, d, layer, i, q);
    if IsMarker(layer[i].name) {
    } else if layer[i].name != q {
      assert !Erases(ign, layer[i], q) by { PlainErasesNothing(ign, layer[i], q); }
      StepSparesPresent(ign, a, d, layer, i, q, was);
    } else {
      assert !Erases(ign, layer[i], q) by { PlainErasesNothing(ign, layer[i], q); }
      OwnEntryPromised(ign, a, d, layer, i);
    }
  }

  lemma PlainErasesNothing(ign: IgnoreList, e: TarEntry, q: Path)
    requires !IsMarker(e.name)
    ensures !Erases(ign, e, q)
  {
  }

  /** Before its own entry comes, a file is linked to nothing, and does not stand. */
  lemma OwnEntryPromised(ign: IgnoreList, a: Nodes, d: Disk, layer: Layer, i: nat)
    requires Snapshot(ign, d, layer) && i < |layer| && !IsMarker(layer[i].name)
    ensures LinkedFrom(d, layer, i, layer[i].name) == layer[i].name && !Stands(ign, layer, i, layer[i].name)
    ensures LinksSkipped(d, layer[i]) ==> layer[i].body.original != layer[i].name
    ensures layer[i].body.SpecialBody? ==> !LinksSkipped(d, layer[i])
  {
    hide Erased;
    var q := layer[i].name;
    if LinkedFrom(d, layer, i, q) != q {
      var j := LinkedEntry(d, layer, i, q);
      OneEntry(d, layer, j, i);
    }
    if Stands(ign, layer, i, q) {
      var j :| 0 <= j < i && layer[j].name == q && !layer[j].body.SpecialBody? && !Erased(ign, layer, j, i, q);
      OneEntry(d, layer, j, i);
    }
    if LinksSkipped(d, layer[i]) {
      OriginalEntry(d, layer, i);
    }
  }

  /** At a visible path of the new disk: the new node where its entry stands, nothing where it was taken away, else the old one. */
  lemma {:induction false} ExpectPresent(ign: IgnoreList, a: Nodes, d: Disk, layer: Layer, i: nat, q: Path)
    requires Snapshot(ign, d, layer) && i <= |layer| && q in d.nodes && !IsMarker(q)
    ensures Expect(ign, a, d, layer, i, q) == Promised(ign, a, d, layer, i, q)
  {
    hide Snapshot, StepAt;
    if i > 0 {
      ExpectPresent(ign, a, d, layer, i - 1, q);
      StepPromised(ign, a, d, layer, i - 1, q);
    }
  }

  /** At a marker file of the new disk: the old node until it is taken away. */
  lemma {:induction false} ExpectMarker(ign: IgnoreList, a: Nodes, d: Disk, layer: Layer, i: nat, q: Path)
    requires Snapshot(ign, d, layer) && i <= |layer| && q in d.nodes && IsMarker(q)
    ensures Expect(ign, a, d, layer, i, q) == if Erased(ign, layer, 0, i, q) then None else At(a, q)
  {
    hide Snapshot, Erases, Erased;
    if i == 0 {
      NothingYet(ign, layer, 0, q);
    } else {
      ExpectMarker(ign, a, d, layer, i - 1, q);
      ErasedNext(ign, layer, 0, i - 1, q);
      if !IsMarker(layer[i - 1].name) {
        PlainErasesNothing(ign, layer[i - 1], q);
        StepSparesPresent(ign, a, d, layer, i - 1, q, Expect(ign, a, d, layer, i - 1, q));
      }
    }
  }

  /** The entry removes everything at or below some path. */
  ghost predicate Clears(ign: IgnoreList, e: TarEntry, q: Path) {
    if IsMarker(e.name) then Erases(ign, e, q)
    else !e.body.SpecialBody? && !e.body.DirBody? && Below(e.name, q)
  }

  ghost predicate ClearedUpTo(ign: IgnoreList, layer: Layer, i: nat, q: Path)
    requires i <= |layer|
  {
    exists j :: 0 <= j < i && Clears(ign, layer[j], q)
  }

  lemma ClearedNext(ign: IgnoreList, layer: Layer, i: nat, q: Path)
    requires 0 < i <= |layer|
    ensures ClearedUpTo(ign, layer, i, q) <==> ClearedUpTo(ign, layer, i - 1, q) || Clears(ign, layer[i - 1], q)
  {
    hide Clears;
    if ClearedUpTo(ign, layer, i, q) {
      var j :| 0 <= j < i && Clears(ign, layer[j], q);
      assert j == i - 1 || j < i - 1;
    }
  }

  /** At a path that is not on the new disk: the old node until an entry clears it away. */
  lemma {:induction false} ExpectAbsent(ign: IgnoreList, a: Nodes, d: Disk, layer: Layer, i: nat, q: Path)
    requires i <= |layer| && q !in d.nodes
    ensures Expect(ign, a, d, layer, i, q) == if ClearedUpTo(ign, layer, i, q) then None else At(a, q)
  {
    hide Erases;
    if i > 0 {
      ExpectAbsent(ign, a, d, layer, i - 1, q);
      ClearedNext(ign, layer, i, q);
    }
  }

  // ---------------------------------------------------------------------------------------------
  // Single entries do what they mean
  // ---------------------------------------------------------------------------------------------

  /** What cannot be told of a tree: with marker files kept, these are hidden as well. */
  ghost predicate Unseen(ign: IgnoreList, keep: bool, q: Path) {
    if keep then Hidden(ign, q) else Veiled(ign, q)
  }

  /** The tree is what the first `i` entries mean, wherever that can be told. */
  ghost predicate Reached(ign: IgnoreList, keep: bool, a: Nodes, d: Disk, layer: Layer, i: nat, t: Tree)
    requires i <= |layer|
  {
    Good(t) && forall q :: !Unseen(ign, keep, q) ==> At(t.nodes, q) == Expect(ign, a, d, layer, i, q)
  }

  lemma VisibleReached(ign: IgnoreList, keep: bool, a: Nodes, d: Disk, layer: Layer, i: nat, t: Tree, q: Path)
    requires i <= |layer| && Reached(ign, keep, a, d, layer, i, t) && !Hidden(ign, q)
    ensures At(t.nodes, q) == Expect(ign, a, d, layer, i, q)
  {
    HiddenExact(ign, q);
  }

  /** What holds the name of an entry is visible and a directory on the new disk. */
  lemma AncestorVisible(ign: IgnoreList, d: Disk, layer: Layer, i: nat, k: nat)
    requires Snapshot(ign, d, layer) && i < |layer| && k < |layer[i].name|
    ensures var q := layer[i].name[..k];
      !Hidden(ign, q) && !IsMarker(q) && IsDir(d.nodes, q) && Described(d, layer, i, q)
  {
    assert EntryOk(d, layer, i) && VisibleName(ign, layer[i].name);
    var q := layer[i].name[..k];
    assert q <= Parent(layer[i].name);
    HiddenBelow(ign, q, Parent(layer[i].name));
    HiddenExact(ign, q);
  }

  /** Nothing but directories is above the name of an entry that has come, or comes next. */
  lemma NameUnlinked(ign: IgnoreList, keep: bool, a: Nodes, d: Disk, layer: Layer, i: nat, t: Tree, j: nat)
    requires Snapshot(ign, d, layer) && j <= i <= |layer| && j < |layer| && Reached(ign, keep, a, d, layer, i, t)
    ensures Unlinked(t.nodes, layer[j].name)
  {
    hide Snapshot, Expect, Reached, Stands, Erased;
    var p := layer[j].name;
    forall k | 0 <= k < |p| && p[..k] in t.nodes ensures t.nodes[p[..k]].Dir? {
      AncestorVisible(ign, d, layer, j, k);
      AncestorPromised(ign, keep, a, d, layer, i, t, j, p[..k]);
    }
  }

  lemma AncestorPromised(ign: IgnoreList, keep: bool, a: Nodes, d: Disk, layer: Layer, i: nat, t: Tree, j: nat, q: Path)
    requires Snapshot(ign, d, layer) && j <= i <= |layer| && Reached(ign, keep, a, d, layer, i, t)
    requires !Hidden(ign, q) && !IsMarker(q) && IsDir(d.nodes, q) && Described(d, layer, j, q)
    ensures At(t.nodes, q) == if Stands(ign, layer, i, q) then At(d.nodes, q) else None
  {
    hide Sane, Faithful, Expect, Stands, Erased, Reached, Hidden, LinkedFrom;
    assert Described(d, layer, i, q);
    VisibleReached(ign, keep, a, d, layer, i, t, q);
    ExpectPresent(ign, a, d, layer, i, q);
    DescribedStands(ign, d, layer, i, q);
    DescribedUnlinked(d, layer, i, j, q);
  }

  /** The directories that hold an entry's name are in place, if none has been taken away. */
  lemma NameReady(ign: IgnoreList, keep: bool, a: Nodes, d: Disk, layer: Layer, i: nat, t: Tree)
    requires Snapshot(ign, d, layer) && i < |layer| && Reached(ign, keep, a, d, layer, i, t) && SteadyAt(ign, layer, i)
    ensures Ready(t, layer[i].name)
  {
    hide Expect, Stands, Erased, Faithful, Sane;
    var p := layer[i].name;
    assert VisibleName(ign, p);
    forall k | 0 <= k < |p| ensures IsDir(t.nodes, p[..k]) {
      AncestorVisible(ign, d, layer, i, k);
      AncestorPromised(ign, keep, a, d, layer, i, t, i, p[..k]);
      AncestorStands(ign, d, layer, i, p[..k]);
    }
  }

  lemma AncestorStands(ign: IgnoreList, d: Disk, layer: Layer, i: nat, q: Path)
    requires i < |layer| && SteadyAt(ign, layer, i) && q < layer[i].name && Described(d, layer, i, q) && IsDir(d.nodes, q)
    ensures Stands(ign, layer, i, q)
  {
    hide Erased;
  }

  /** What one entry did to the tree is what the entry means, path by path. */
  ghost predicate Meant(ign: IgnoreList, keep: bool, a: Nodes, d: Disk, e: TarEntry, t: Tree, r: Result) {
    && r.Done? && Good(r.tree)
    && forall q :: !Unseen(ign, keep, q) ==> At(r.tree.nodes, q) == StepAt(ign, a, d, e, q, At(t.nodes, q))
  }

  /** The entry leaves a path alone. */
  ghost predicate Spared(ign: IgnoreList, e: TarEntry, q: Path) {
    if IsMarker(e.name) then !Erases(ign, e, q)
    else q != e.name && (!Below(e.name, q) || e.body.DirBody?)
  }

  /** The inode of the entry's own file: that of its original, or one that is nobody else's. */
  ghost predicate OwnInode(e: TarEntry, t: Tree, r: Tree) {
    if e.body.HardlinkBody? then
      e.body.original in t.ino && e.name in r.ino && r.ino[e.name] == t.ino[e.body.original]
    else e.body.RegBody? || e.body.SymlinkBody? ==> e.name in r.ino && r.ino[e.name] == t.next
  }

  /** What one entry does to inodes: others keep theirs. */
  ghost predicate InodesMeant(ign: IgnoreList, e: TarEntry, t: Tree, r: Result) {
    && r.Done?
    && (forall q :: q in t.ino && Spared(ign, e, q) ==> q in r.tree.ino && r.tree.ino[q] == t.ino[q])
    && (!IsMarker(e.name) ==> OwnInode(e, t, r.tree))
  }

  lemma MarkerMeant(ign: IgnoreList, a: Nodes, d: Disk, e: TarEntry, t: Tree)
    requires IsMarker(e.name) && Good(t) && Plain(Whited(e.name)) && Unlinked(t.nodes, Whited(e.name)) && Whited(e.name) != []
    ensures Meant(ign, false, a, d, e, t, ApplyEntry(ign, false, t, e))
    ensures InodesMeant(ign, e, t, ApplyEntry(ign, false, t, e))
  {
    WhitedOut(t, Whited(e.name));
  }

  lemma DirMeant(ign: IgnoreList, keep: bool, a: Nodes, d: Disk, e: TarEntry, t: Tree)
    requires !IsMarker(e.name) && Ready(t, e.name) && !Ignored(ign, e.name)
    requires e.body.DirBody? && GivesWay(t.nodes, e.name) && e.name in d.nodes && EntryNode(a, d, e) == Some(Dir(e.body.attr))
    ensures Meant(ign, keep, a, d, e, t, ApplyEntry(ign, keep, t, e))
    ensures InodesMeant(ign, e, t, ApplyEntry(ign, keep, t, e))
  {
    DirMade(t, e.name, e.body.attr);
  }

  lemma ReplaceApplied(ign: IgnoreList, e: TarEntry, t: Tree, n: Node)
    requires Ready(t, e.name) && !Ignored(ign, e.name) && e.name != []
    requires e.body == BodyOf(n) && (n.File? || n.Symlink?)
    ensures ExtractFile(ign, t, e) == Replace(t, e.name, n)
  {
    ParentStands(t, e.name);
  }

  /** Taking a name away with all below it and giving it to a new object is what the entry means. */
  lemma ReplacementMeant(ign: IgnoreList, keep: bool, a: Nodes, d: Disk, e: TarEntry, t: Tree, n: Node, r: Result)
    requires !IsMarker(e.name) && !e.body.DirBody? && !e.body.SpecialBody?
    requires e.name in d.nodes && EntryNode(a, d, e) == Some(n) && r.Done? && Good(r.tree)
    requires r.tree.nodes == Drop(t.nodes, e.name)[e.name := n]
    ensures Meant(ign, keep, a, d, e, t, r)
  {
    assert Below(e.name, e.name);
  }

  lemma ReplaceMeant(ign: IgnoreList, keep: bool, a: Nodes, d: Disk, e: TarEntry, t: Tree, n: Node)
    requires !IsMarker(e.name) && Ready(t, e.name) && !Ignored(ign, e.name) && e.name != [] && e.name in d.nodes
    requires EntryNode(a, d, e) == Some(n) && e.body == BodyOf(n) && (n.File? || n.Symlink?)
    ensures Meant(ign, keep, a, d, e, t, ApplyEntry(ign, keep, t, e))
    ensures InodesMeant(ign, e, t, ApplyEntry(ign, keep, t, e))
  {
    ReplaceApplied(ign, e, t, n);
    Replaced(t, e.name, n);
    ReplacementMeant(ign, keep, a, d, e, t, n, Replace(t, e.name, n));
  }

  lemma LinkApplied(ign: IgnoreList, e: TarEntry, t: Tree)
    requires Ready(t, e.name) && !Ignored(ign, e.name) && e.name != []
    requires e.body.HardlinkBody? && !Ignored(ign, e.body.original) && Clear(t, e.name).Done?
    ensures ExtractFile(ign, t, e) == LinkAt(Clear(t, e.name).tree, e.body.original, e.name)
  {
    ParentStands(t, e.name);
  }

  lemma LinkMeant(ign: IgnoreList, keep: bool, a: Nodes, d: Disk, e: TarEntry, t: Tree)
    requires !IsMarker(e.name) && Ready(t, e.name) && !Ignored(ign, e.name) && e.name != []
    requires e.body.HardlinkBody? && !Ignored(ign, e.body.original)
    requires var o := e.body.original;
      && Plain(o) && !Below(e.name, o) && o in t.nodes && !t.nodes[o].Dir?
      && e.name in d.nodes && EntryNode(a, d, e) == Some(t.nodes[o])
    ensures Meant(ign, keep, a, d, e, t, ApplyEntry(ign, keep, t, e))
    ensures InodesMeant(ign, e, t, ApplyEntry(ign, keep, t, e))
  {
    Linked(t, e.body.original, e.name);
    LinkApplied(ign, e, t);
    ReplacementMeant(ign, keep, a, d, e, t, t.nodes[e.body.original], ApplyEntry(ign, keep, t, e));
  }

  /** Where the original of a link entry is: below directories, plain, not veiled, and not below the entry's name. */
  lemma OriginalPlaced(ign: IgnoreList, keep: bool, a: Nodes, d: Disk, layer: Layer, i: nat, t: Tree)
    requires Snapshot(ign, d, layer) && i < |layer| && Reached(ign, keep, a, d, layer, i, t)
    requires !IsMarker(layer[i].name) && layer[i].body.HardlinkBody?
    ensures var e := layer[i]; var o := e.body.original;
      && Plain(o) && !Below(e.name, o) && !Ignored(ign, o) && !Veiled(ign, o) && (IsMarker(o) || !Hidden(ign, o))
      && Unlinked(t.nodes, o)
  {
    hide Expect, Reached;
    var e := layer[i];
    var o := e.body.original;
    EntryKind(ign, d, layer, i);
    OriginalEntry(d, layer, i);
    var j :| 0 <= j < i && layer[j] == TarEntry(o, BodyOf(d.nodes[o]));
    assert VisibleName(ign, layer[j].name) && !Ignored(ign, o);
    HiddenExact(ign, Parent(o));
    if Below(e.name, o) {
      PresentAbove(d.nodes, e.name, o);
    }
    NameUnlinked(ign, keep, a, d, layer, i, t, j);
  }

  /** A link entry finds its original, and so what it means, exactly if that is in the tree as no directory. */
  lemma OriginalThere(ign: IgnoreList, keep: bool, a: Nodes, d: Disk, layer: Layer, i: nat, t: Tree)
    requires Snapshot(ign, d, layer) && i < |layer| && Reached(ign, keep, a, d, layer, i, t)
    requires !IsMarker(layer[i].name) && layer[i].body.HardlinkBody?
    requires keep ==> !IsMarker(layer[i].body.original)
    ensures var e := layer[i]; var o := e.body.original;
      && (LinkFound(ign, a, d, layer, i) <==> o in t.nodes && !t.nodes[o].Dir?)
      && (LinkFound(ign, a, d, layer, i) ==> At(t.nodes, o) == EntryNode(a, d, e))
  {
    hide Expect, Snapshot, Stands, Erased, Hidden;
    var o := layer[i].body.original;
    OriginalPlaced(ign, keep, a, d, layer, i, t);
    assert !Unseen(ign, keep, o);
    assert At(t.nodes, o) == Expect(ign, a, d, layer, i, o);
    OriginalMeant(ign, a, d, layer, i);
  }

  /** What the original of a link entry is when the entry comes. */
  lemma OriginalMeant(ign: IgnoreList, a: Nodes, d: Disk, layer: Layer, i: nat)
    requires Snapshot(ign, d, layer) && i < |layer|
    requires !IsMarker(layer[i].name) && layer[i].body.HardlinkBody?
    ensures var e := layer[i]; var o := e.body.original; var now := Expect(ign, a, d, layer, i, o);
      && (LinkFound(ign, a, d, layer, i) <==> now.Some? && !now.value.Dir?)
      && (LinkFound(ign, a, d, layer, i) ==> now == EntryNode(a, d, e))
  {
    hide Expect, Stands, Erased;
    var o := layer[i].body.original;
    OriginalEntry(d, layer, i);
    if IsMarker(o) {
      ExpectMarker(ign, a, d, layer, i, o);
    } else {
      ExpectPresent(ign, a, d, layer, i, o);
      DescribedUnlinked(d, layer, i, i, o);
      if d.nodes[o].Special? {
        SpecialNeverStands(ign, d, layer, i, i, o);
      } else {
        DescribedStands(ign, d, layer, i, o);
      }
    }
  }

  /** The visible part of the tree that the first `i` entries mean. */
  ghost function MeantTree(ign: IgnoreList, a: Nodes, d: Disk, layer: Layer, i: nat): Nodes
    requires i <= |layer|
  {
    map q | q in a.Keys + d.nodes.Keys && !Hidden(ign, q) && Expect(ign, a, d, layer, i, q).Some? ::
      Expect(ign, a, d, layer, i, q).value
  }

  /** A directory entry finds no link under its name, or one that leads, over what is visible, to a file. */
  ghost predicate LinkGivesWay(ign: IgnoreList, a: Nodes, d: Disk, layer: Layer, i: nat)
    requires i < |layer|
  {
    !IsMarker(layer[i].name) && layer[i].body.DirBody? ==> GivesWay(MeantTree(ign, a, d, layer, i), layer[i].name)
  }

  ghost predicate LinksGiveWay(ign: IgnoreList, a: Nodes, d: Disk, layer: Layer) {
    forall i :: 0 <= i < |layer| ==> LinkGivesWay(ign, a, d, layer, i)
  }

  lemma DirEntryGivesWay(ign: IgnoreList, keep: bool, a: Nodes, d: Disk, layer: Layer, i: nat, t: Tree)
    requires Snapshot(ign, d, layer) && i < |layer| && Reached(ign, keep, a, d, layer, i, t)
    requires LinkGivesWay(ign, a, d, layer, i) && !IsMarker(layer[i].name) && layer[i].body.DirBody?
    ensures GivesWay(t.nodes, layer[i].name)
  {
    hide Expect, Faithful, Sane, Hidden;
    var p := layer[i].name;
    var v := MeantTree(ign, a, d, layer, i);
    EntryKind(ign, d, layer, i);
    assert VisibleName(ign, p);
    forall q | q in v ensures q in t.nodes && t.nodes[q] == v[q] {
      VisibleReached(ign, keep, a, d, layer, i, t, q);
    }
    VisibleReached(ign, keep, a, d, layer, i, t, p);
    if p in t.nodes && t.nodes[p].Symlink? {
      assert p in v && v[p] == t.nodes[p];
      FollowInMore(v, t.nodes, [], p, KERNEL_LINKS);
    }
  }

  /** With marker files kept: each of them is a file of its own beside what it deletes, and links need none of them. */
  ghost predicate Keepable(ign: IgnoreList, layer: Layer) {
    forall i :: 0 <= i < |layer| ==> KeepableAt(ign, layer, i)
  }

  ghost predicate KeepableAt(ign: IgnoreList, layer: Layer, i: nat)
    requires i < |layer|
  {
    var e := layer[i];
    if IsMarker(e.name) then
      !e.body.DirBody? && !e.body.HardlinkBody? && !(Whited(e.name) <= Parent(e.name)) && SteadyAt(ign, layer, i)
    else
      e.body.HardlinkBody? ==> !IsMarker(e.body.original)
  }

  /** A whiteout entry removes what it says, and the marker file it may leave behind is hidden. */
  lemma MarkerEntryMeant(ign: IgnoreList, keep: bool, a: Nodes, d: Disk, layer: Layer, i: nat, t: Tree)
    requires Snapshot(ign, d, layer) && i < |layer| && Reached(ign, keep, a, d, layer, i, t) && IsMarker(layer[i].name)
    requires keep ==> KeepableAt(ign, layer, i)
    ensures Meant(ign, keep, a, d, layer[i], t, ApplyEntry(ign, keep, t, layer[i]))
    ensures !keep ==> InodesMeant(ign, layer[i], t, ApplyEntry(ign, keep, t, layer[i]))
  {
    hide Expect, Faithful, Sane, SteadyAt, Hidden;
    var e := layer[i];
    var w := Whited(e.name);
    assert VisibleName(ign, e.name);
    NameUnlinked(ign, keep, a, d, layer, i, t, i);
    assert forall k :: 0 <= k < |w| ==> w[..k] == e.name[..k];
    MarkerMeant(ign, a, d, e, t);
    if keep {
      NameReady(ign, keep, a, d, layer, i, t);
      KeptMarkerMeant(ign, a, d, e, t);
    }
  }

  lemma KeptMarkerMeant(ign: IgnoreList, a: Nodes, d: Disk, e: TarEntry, t: Tree)
    requires IsMarker(e.name) && Ready(t, e.name) && !e.body.DirBody? && !e.body.HardlinkBody?
    requires !(Whited(e.name) <= Parent(e.name)) && Whited(e.name) != []
    requires Meant(ign, false, a, d, e, t, ApplyEntry(ign, false, t, e))
    ensures Meant(ign, true, a, d, e, t, ApplyEntry(ign, true, t, e))
  {
    var w := Whited(e.name);
    assert forall k :: 0 <= k < |w| ==> w[..k] == e.name[..k];
    forall q | !Hidden(ign, q) ensures !Veiled(ign, q) {
      HiddenExact(ign, q);
    }
    if !Ignored(ign, w) && !HoldsIgnored(ign, w) {
      WhitedOut(t, w);
      DropLiteral(t, w, e.name);
      MarkerKept(ign, Without(t, w), e);
    }
  }

  /** Leaving the marker file behind changes nothing that a layer can tell. */
  lemma MarkerKept(ign: IgnoreList, t: Tree, e: TarEntry)
    requires IsMarker(e.name) && Ready(t, e.name) && !e.body.DirBody? && !e.body.HardlinkBody?
    ensures var r := ExtractFile(ign, t, e);
      r.Done? && Good(r.tree) && Agree(ign, t.nodes, r.tree.nodes)
  {
    if !Ignored(ign, e.name) && !e.body.SpecialBody? {
      var n := if e.body.RegBody? then File(e.body.attr, e.body.data) else Symlink(e.body.target);
      ReplaceApplied(ign, e, t, n);
      Replaced(t, e.name, n);
      forall q ensures Below(e.name, q) ==> Hidden(ign, q) {
        BelowMarkerHidden(ign, e.name, q);
      }
    }
  }

  /** A whiteout that is applied leaves its marker file on the disk if these are kept, and otherwise what was there. */
  lemma MarkerLeft(ign: IgnoreList, keep: bool, t: Tree, e: TarEntry)
    requires IsMarker(e.name) && Ready(t, e.name) && e.body.RegBody? && !Ignored(ign, e.name)
    requires Whited(e.name) != [] && !(Whited(e.name) <= e.name)
    requires !Ignored(ign, Whited(e.name)) && !HoldsIgnored(ign, Whited(e.name))
    ensures var r := ApplyEntry(ign, keep, t, e);
      r.Done? && At(r.tree.nodes, e.name) == if keep then Some(File(e.body.attr, e.body.data)) else At(t.nodes, e.name)
  {
    var w := Whited(e.name);
    assert forall k :: 0 <= k < |w| ==> w[..k] == e.name[..k];
    WhitedOut(t, w);
    if keep {
      PrefixOfParent(w, e.name);
      DropLiteral(t, w, e.name);
      ReplaceApplied(ign, e, Without(t, w), File(e.body.attr, e.body.data));
      Replaced(Without(t, w), e.name, File(e.body.attr, e.body.data));
    }
  }

  lemma BelowMarkerHidden(ign: IgnoreList, name: Path, q: Path)
    requires IsMarker(name)
    ensures Below(name, q) ==> Hidden(ign, q)
  {
    if Below(name, q) {
      assert MarkerName(q[|name| - 1]);
    }
  }

  /** Every entry of a snapshot layer does what it means, marker files kept or not. */
  lemma EntryMeant(ign: IgnoreList, keep: bool, a: Nodes, d: Disk, layer: Layer, i: nat, t: Tree)
    requires Snapshot(ign, d, layer) && i < |layer| && Reached(ign, keep, a, d, layer, i, t)
    requires !IsMarker(layer[i].name) ==> SteadyAt(ign, layer, i)
    requires LinkGivesWay(ign, a, d, layer, i) && LinkFound(ign, a, d, layer, i) && (keep ==> KeepableAt(ign, layer, i))
    ensures Meant(ign, keep, a, d, layer[i], t, ApplyEntry(ign, keep, t, layer[i]))
    ensures !keep ==> InodesMeant(ign, layer[i], t, ApplyEntry(ign, keep, t, layer[i]))
  {
    hide Faithful, Sane, Reached, SteadyAt, LinkGivesWay, Meant, InodesMeant, LinkFound, Hidden;
    var e := layer[i];
    if IsMarker(e.name) {
      MarkerEntryMeant(ign, keep, a, d, layer, i, t);
    } else {
      FileEntryMeant(ign, keep, a, d, layer, i, t);
    }
  }

  lemma FileEntryMeant(ign: IgnoreList, keep: bool, a: Nodes, d: Disk, layer: Layer, i: nat, t: Tree)
    requires Snapshot(ign, d, layer) && i < |layer| && Reached(ign, keep, a, d, layer, i, t)
    requires !IsMarker(layer[i].name) && SteadyAt(ign, layer, i)
    requires LinkGivesWay(ign, a, d, layer, i) && LinkFound(ign, a, d, layer, i)
    requires keep && layer[i].body.HardlinkBody? ==> !IsMarker(layer[i].body.original)
    ensures Meant(ign, keep, a, d, layer[i], t, ApplyEntry(ign, keep, t, layer[i]))
    ensures InodesMeant(ign, layer[i], t, ApplyEntry(ign, keep, t, layer[i]))
  {
    hide Faithful, Reached, SteadyAt, LinkGivesWay, Meant, InodesMeant, LinkFound;
    var e := layer[i];
    NameReady(ign, keep, a, d, layer, i, t);
    assert VisibleName(ign, e.name);
    EntryKind(ign, d, layer, i);
    if e.body.HardlinkBody? {
      OriginalPlaced(ign, keep, a, d, layer, i, t);
      OriginalThere(ign, keep, a, d, layer, i, t);
      NotRoot(d, layer, i);
      LinkMeant(ign, keep, a, d, e, t);
    } else if e.body.DirBody? {
      DirEntryGivesWay(ign, keep, a, d, layer, i, t);
      DirMeant(ign, keep, a, d, e, t);
    } else if !e.body.SpecialBody? {
      ReplaceMeant(ign, keep, a, d, e, t, d.nodes[e.name]);
    } else {
      SpecialMeant(ign, keep, a, d, e, t);
    }
  }

  lemma NotRoot(d: Disk, layer: Layer, i: nat)
    requires Sane(d) && Faithful(d, layer) && i < |layer| && !IsMarker(layer[i].name) && layer[i].body.HardlinkBody?
    ensures layer[i].name != []
  {
    OriginalEntry(d, layer, i);
  }

  lemma SpecialMeant(ign: IgnoreList, keep: bool, a: Nodes, d: Disk, e: TarEntry, t: Tree)
    requires !IsMarker(e.name) && e.body.SpecialBody? && Good(t)
    ensures Meant(ign, keep, a, d, e, t, ApplyEntry(ign, keep, t, e))
    ensures InodesMeant(ign, e, t, ApplyEntry(ign, keep, t, e))
  {
  }

  /** A link entry that does not find its original ends the extraction. */
  lemma LinkFails(ign: IgnoreList, keep: bool, a: Nodes, d: Disk, layer: Layer, i: nat, t: Tree)
    requires Snapshot(ign, d, layer) && i < |layer| && Reached(ign, keep, a, d, layer, i, t)
    requires !LinkFound(ign, a, d, layer, i) && SteadyAt(ign, layer, i)
    requires keep ==> KeepableAt(ign, layer, i)
    ensures ApplyEntry(ign, keep, t, layer[i]).Failed?
  {
    hide Faithful, Reached, SteadyAt, Erased, Stands;
    var e := layer[i];
    NameReady(ign, keep, a, d, layer, i, t);
    assert VisibleName(ign, e.name);
    OriginalPlaced(ign, keep, a, d, layer, i, t);
    OriginalThere(ign, keep, a, d, layer, i, t);
    NotRoot(d, layer, i);
    LinkResisted(t, e.body.original, e.name);
    LinkApplied(ign, e, t);
  }

  // ---------------------------------------------------------------------------------------------
  // Whole layers
  // ---------------------------------------------------------------------------------------------

  lemma LinksFoundNext(ign: IgnoreList, a: Nodes, d: Disk, layer: Layer, i: nat)
    requires 0 < i <= |layer|
    ensures LinksFound(ign, a, d, layer, i) <==> LinksFound(ign, a, d, layer, i - 1) && LinkFound(ign, a, d, layer, i - 1)
  {
    hide LinkFound;
  }

  lemma ReachedNext(ign: IgnoreList, keep: bool, a: Nodes, d: Disk, layer: Layer, i: nat, t: Tree, r: Result)
    requires 0 < i <= |layer| && Reached(ign, keep, a, d, layer, i - 1, t)
    requires Meant(ign, keep, a, d, layer[i - 1], t, r)
    ensures Reached(ign, keep, a, d, layer, i, r.tree)
  {
    hide StepAt, Unseen, Good;
  }

  /**
   * The whole layer does what it means: extraction gets through its first entries exactly if each link
   * finds its original, and then the tree is what they mean.
   */
  lemma {:induction false} LayerMeant(ign: IgnoreList, keep: bool, a: Tree, d: Disk, layer: Layer, i: nat)
    requires Snapshot(ign, d, layer) && i <= |layer| && Good(a)
    requires LinksGiveWay(ign, a.nodes, d, layer) && Steady(ign, layer) && (keep ==> Keepable(ign, layer))
    ensures var r := ApplyLayer(ign, keep, a, layer[..i]);
      && (r.Done? <==> LinksFound(ign, a.nodes, d, layer, i))
      && (r.Done? ==> Reached(ign, keep, a.nodes, d, layer, i, r.tree))
  {
    hide Snapshot, LinkGivesWay, SteadyAt, KeepableAt, LinkFound, Meant, InodesMeant;
    if i > 0 {
      hide Reached;
      LayerMeant(ign, keep, a, d, layer, i - 1);
      assert layer[..i][..i - 1] == layer[..i - 1];
      var r := ApplyLayer(ign, keep, a, layer[..i - 1]);
      LinksFoundNext(ign, a.nodes, d, layer, i);
      if r.Done? && LinkFound(ign, a.nodes, d, layer, i - 1) {
        EntryMeant(ign, keep, a.nodes, d, layer, i - 1, r.tree);
        ReachedNext(ign, keep, a.nodes, d, layer, i, r.tree, ApplyLayer(ign, keep, a, layer[..i]));
        MeantIsDone(ign, keep, a.nodes, d, layer[i - 1], r.tree, ApplyLayer(ign, keep, a, layer[..i]));
      } else if r.Done? {
        OnlyLinksAreMissed(ign, a.nodes, d, layer, i - 1);
        LinkFails(ign, keep, a.nodes, d, layer, i - 1, r.tree);
      }
    }
  }

  lemma MeantIsDone(ign: IgnoreList, keep: bool, a: Nodes, d: Disk, e: TarEntry, t: Tree, r: Result)
    requires Meant(ign, keep, a, d, e, t, r)
    ensures r.Done?
  {
  }

  lemma OnlyLinksAreMissed(ign: IgnoreList, a: Nodes, d: Disk, layer: Layer, i: nat)
    requires i < |layer| && !LinkFound(ign, a, d, layer, i)
    ensures !IsMarker(layer[i].name)
  {
  }
}

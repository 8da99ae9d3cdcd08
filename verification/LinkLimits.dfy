/** Where the round trip ends: links that became directories, files that extraction skips, and marker files. */
module LinkLimits {
  import opened Options
  import opened Paths
  import opened IgnoreLists
  import opened Disks
  import opened Extraction
  import opened ExtractionSteps
  import opened Changesets
  import opened LayerMeaning
  import opened RoundTrip

  /** A link that `os.Stat` takes for a directory is left in place; one that leads nowhere is an error. */
  lemma StuckLink(t: Tree, p: Path, attr: int)
    requires Ready(t, p) && !GivesWay(t.nodes, p)
    ensures var r := MkdirAllWithPermissions(t, p, attr);
      r.Done? ==> p in r.tree.nodes && r.tree.nodes[p] == t.nodes[p]
  {
    match StatPath(t.nodes, p)
    case Found(q) =>
      FollowFindsReal(t.nodes, [], p, KERNEL_LINKS);
    case Missing =>
      PlaceLiteral(t.nodes, p);
      assert t.nodes[ROOT].Dir?;
      LiteralParent(t.nodes, p);
      PlainParent(p);
      StatLiteral(t.nodes, Parent(p));
      assert MkdirAll(t, p, attr).Failed?;
    case Broken =>
  }

  /** A directory entry makes a directory if and only if no link resists. */
  lemma DirEntryExact(t: Tree, p: Path, attr: int)
    requires Ready(t, p)
    ensures var r := MkdirAllWithPermissions(t, p, attr);
      (r.Done? && IsDir(r.tree.nodes, p)) <==> GivesWay(t.nodes, p)
  {
    if GivesWay(t.nodes, p) {
      DirMade(t, p, attr);
    } else {
      StuckLink(t, p, attr);
    }
  }

  /** A link `l` to `t`, which is the node given. */
  function Old(n: Node): Nodes {
    map[[] := Dir(0), ["l"] := Symlink(Target(true, ["t"])), ["t"] := n]
  }

  /** The link became a directory. */
  function New(n: Node): Nodes {
    map[[] := Dir(0), ["l"] := Dir(0), ["t"] := n]
  }

  function OldTree(n: Node): Tree {
    Tree(Old(n), map[[] := 0, ["l"] := 1, ["t"] := 2], 3)
  }

  function NewDisk(n: Node): Disk {
    Disk(New(n), map[[] := 0, ["l"] := 3, ["t"] := 2], map[[] := 2, ["l"] := 2, ["t"] := 2], map[])
  }

  const LAYER: Layer := [TarEntry([], DirBody(0)), TarEntry(["l"], DirBody(0))]

  lemma LayerFaithful(n: Node)
    ensures Faithful(NewDisk(n), LAYER)
  {
    var l: Path := ["l"];
    assert forall k :: 0 <= k < |l| ==> l[..k] == [];
    assert LAYER[0] == TarEntry([], BodyOf(NewDisk(n).nodes[[]]));
    assert Described(NewDisk(n), LAYER, 1, []);
    assert EntryOk(NewDisk(n), LAYER, 0);
    assert EntryOk(NewDisk(n), LAYER, 1);
  }

  lemma ExampleClosed(nodes: Nodes, n: Node)
    requires nodes == Old(n) || nodes == New(n)
    ensures Closed(nodes) && nodes.Keys == {[], ["l"], ["t"]}
  {
    forall p | p in nodes && p != [] ensures Parent(p) == [] {
      assert p == ["l"] || p == ["t"];
    }
  }

  lemma ExampleInodes(n: Node)
    ensures NewDisk(n).ino.Keys == NewDisk(n).nlink.Keys == {[], ["l"], ["t"]}
    ensures forall p, q :: p in NewDisk(n).ino && q in NewDisk(n).ino && p != q ==> NewDisk(n).ino[p] != NewDisk(n).ino[q]
  {
    var ino := NewDisk(n).ino;
    assert ino.Keys == {[], ["l"], ["t"]} == NewDisk(n).nlink.Keys;
    forall p, q | p in ino && q in ino && p != q ensures ino[p] != ino[q] {
      assert p == [] || p == ["l"] || p == ["t"];
      assert q == [] || q == ["l"] || q == ["t"];
    }
  }

  lemma ExampleDisk(n: Node)
    ensures Sane(NewDisk(n))
  {
    var d := NewDisk(n);
    ExampleClosed(New(n), n);
    ExampleInodes(n);
    forall p | p in d.nodes ensures Plain(p) {
      assert p == [] || p == ["l"] || p == ["t"];
    }
    SingleNamesSane(d);
  }

  /** A disk on which every name has an inode of its own. */
  lemma SingleNamesSane(d: Disk)
    requires Closed(d.nodes) && d.ino.Keys == d.nodes.Keys == d.nlink.Keys && forall p :: p in d.nodes ==> Plain(p)
    requires forall p, q :: p in d.ino && q in d.ino && p != q ==> d.ino[p] != d.ino[q]
    ensures Sane(d)
  {
  }

  lemma ExampleTree(n: Node)
    ensures Good(OldTree(n))
  {
    ExampleClosed(Old(n), n);
    hide Closed;
    var t := OldTree(n);
    assert t.ino.Keys == {[], ["l"], ["t"]};
    forall p | p in t.ino ensures t.ino[p] < 3 {
      assert p == [] || p == ["l"] || p == ["t"];
    }
  }

  lemma ExampleVisible()
    ensures Visible({}, LAYER)
  {
    forall i | 0 <= i < |LAYER| ensures VisibleName({}, LAYER[i].name) {
      assert i == 0 || i == 1;
    }
  }

  lemma ExampleComplete(n: Node)
    ensures ChangesWritten({}, Old(n), NewDisk(n), LAYER) && DeletionsWritten({}, Old(n), NewDisk(n), LAYER)
    ensures !n.Special? ==> NoNewSpecial({}, Old(n), New(n))
    ensures NothingHeldBack({}, Old(n), New(n))
    ensures MarkersUnlinked({}, NewDisk(n)) && MarkersHarmless({}, NewDisk(n), LAYER)
  {
    assert LAYER[1].name == ["l"];
    forall q | q in New(n) && At(Old(n), q) != Some(New(n)[q]) ensures Written(LAYER, |LAYER|, q) {
      assert q == ["l"];
    }
    assert Old(n).Keys == New(n).Keys;
    forall p | p in NewDisk(n).ino ensures !IsMarker(p) {
      assert p == [] || p == ["l"] || p == ["t"];
    }
    forall i | 0 <= i < |LAYER| ensures Harmless({}, New(n), LAYER[i].name) {
      assert i == 0 || i == 1;
    }
  }

  /** Everything but links is in order. */
  ghost predicate InOrder(t: Tree, d: Disk, layer: Layer) {
    && SnapshotOf({}, t.nodes, d, layer) && Good(t) && MarkersHarmless({}, d, layer)
    && NoNewSpecial({}, t.nodes, d.nodes) && NothingHeldBack({}, t.nodes, d.nodes) && MarkersUnlinked({}, d)
  }

  lemma ExampleIsSnapshot(n: Node)
    requires !n.Special?
    ensures InOrder(OldTree(n), NewDisk(n), LAYER)
  {
    LayerFaithful(n);
    ExampleDisk(n);
    ExampleTree(n);
    ExampleVisible();
    ExampleComplete(n);
  }

  /**
   * Without the condition on links the round trip fails: here a link to a directory became a
   * directory, the layer is complete, extraction succeeds, and the link is still there.
   */
  lemma LinkToDirectorySurvives()
    ensures var t, d := OldTree(Dir(0)), NewDisk(Dir(0));
      && InOrder(t, d, LAYER)
      && ApplyLayer({}, false, t, LAYER).Done?
      && !Agree({}, ApplyLayer({}, false, t, LAYER).tree.nodes, d.nodes)
  {
    var t, d := OldTree(Dir(0)), NewDisk(Dir(0));
    ExampleIsSnapshot(Dir(0));
    hide InOrder, ApplyEntry, Hidden;
    assert LAYER[..2] == LAYER;
    assert LAYER[..1] == [LAYER[0]] && LAYER[..1][..0] == [];
    ExtractRoot(t);
    ExtractLink(t);
    var r := ApplyLayer({}, false, t, LAYER);
    assert ApplyLayer({}, false, t, LAYER[..1]) == Done(t);
    assert r == Done(t);
    StillALink(t, d);
  }

  lemma StillALink(t: Tree, d: Disk)
    requires t == OldTree(Dir(0)) && d == NewDisk(Dir(0))
    ensures !Agree({}, t.nodes, d.nodes)
  {
    var l: Path := ["l"];
    assert !Hidden({}, l);
    assert At(t.nodes, l) != At(d.nodes, l);
  }

  /** The same with a link to a file meets every condition of the round trip, so the directory is there. */
  lemma LinkToFileGivesWay(attr: int, data: string)
    ensures var t, d := OldTree(File(attr, data)), NewDisk(File(attr, data));
      && InOrder(t, d, LAYER) && LinksYield({}, t.nodes, d.nodes)
      && ApplyLayer({}, false, t, LAYER).Done?
      && Agree({}, ApplyLayer({}, false, t, LAYER).tree.nodes, d.nodes)
  {
    var n := File(attr, data);
    var t, d := OldTree(n), NewDisk(n);
    ExampleIsSnapshot(n);
    FileYields(n);
    hide SnapshotOf, Good, LinksYield, NoNewSpecial, NothingHeldBack, MarkersHarmless, MarkersUnlinked, ApplyLayer, Agree;
    HarmlessUndoesDiff({}, t, d, LAYER);
  }

  lemma FileYields(n: Node)
    requires n.File?
    ensures LinksYield({}, Old(n), New(n))
  {
    var a, b := Old(n), New(n);
    forall p | p in a && a[p].Symlink? && IsDir(b, p) ensures GivesWay(Lasting({}, a, b)[p := a[p]], p) {
      assert p == ["l"];
      var v := Lasting({}, a, b)[p := a[p]];
      assert [] + ["l"] == p && ["t"] + p[1..] == ["t"] && [] + ["t"] == ["t"];
      assert !Hidden({}, []) && !Hidden({}, ["t"]);
      assert Follow(v, [], ["t"], 39) == Found(["t"]);
      assert StatPath(v, p) == Found(["t"]);
    }
  }

  lemma ExtractRoot(t: Tree)
    requires t == OldTree(Dir(0))
    ensures ApplyEntry({}, false, t, LAYER[0]) == Done(t)
  {
    assert StatPath(t.nodes, []) == Found([]);
    assert t.nodes[[] := Dir(0)] == t.nodes;
  }

  lemma ExtractLink(t: Tree)
    requires t == OldTree(Dir(0))
    ensures ApplyEntry({}, false, t, LAYER[1]) == Done(t)
  {
    var l: Path := ["l"];
    assert [] + ["l"] == l && ["t"] + l[1..] == ["t"];
    assert Follow(t.nodes, [], ["t"], 39) == Found(["t"]) by {
      assert [] + ["t"] == ["t"];
    }
    assert StatPath(t.nodes, l) == Found(["t"]);
    assert t.nodes[["t"] := Dir(0)] == t.nodes;
  }

  // ---------------------------------------------------------------------------------------------
  // Two names of a file that extraction skips
  // ---------------------------------------------------------------------------------------------

  const BARE: Tree := Tree(map[[] := Dir(0)], map[[] := 0], 1)

  function TwoNames(p: Path, n: Node): Nodes {
    map[[] := Dir(0), p := n, ["b"] := n]
  }

  function TwoNamesDisk(p: Path, n: Node): Disk {
    Disk(TwoNames(p, n), map[[] := 0, p := 1, ["b"] := 1], map[[] := 2, p := 2, ["b"] := 2], map[])
  }

  /** The first name carries the content, the second is a link to it. */
  function TwoNamesLayer(p: Path, n: Node): Layer {
    [TarEntry([], DirBody(0)), TarEntry(p, BodyOf(n)), TarEntry(["b"], HardlinkBody(p))]
  }

  /** A pipe, or a file with a marker's name. */
  ghost predicate SkippedName(p: Path, n: Node) {
    || (p == ["a"] && n == Special(false, 0))
    || (p == [".wh.x"] && n == File(0, ""))
  }

  lemma MarkerOfX()
    ensures IsMarker([".wh.x"]) && Whited([".wh.x"]) == ["x"]
  {
    assert ".wh.x"[|WHITEOUT_PREFIX|..] == "x";
    assert [".wh.x"][..0] == [];
  }

  lemma TwoNamesPaths(p: Path, n: Node, q: Path)
    requires SkippedName(p, n)
    ensures q in TwoNames(p, n) <==> q == [] || q == p || q == ["b"]
    ensures q in TwoNames(p, n) && q != [] ==> Parent(q) == [] && Plain(q) && q[..0] == []
  {
  }

  lemma TwoNamesClosed(p: Path, n: Node)
    requires SkippedName(p, n)
    ensures Closed(TwoNames(p, n)) && forall q :: q in TwoNames(p, n) ==> Plain(q)
  {
    forall q | q in TwoNames(p, n) ensures Plain(q) && (q != [] ==> Parent(q) == []) {
      TwoNamesPaths(p, n, q);
    }
  }

  lemma TwoNamesSane(p: Path, n: Node)
    requires SkippedName(p, n)
    ensures Sane(TwoNamesDisk(p, n))
  {
    var d := TwoNamesDisk(p, n);
    TwoNamesClosed(p, n);
    hide Closed, Plain, TwoNames;
    forall q ensures (q in d.nodes <==> q in d.ino) && (q in d.nodes <==> q in d.nlink) {
      TwoNamesPaths(p, n, q);
    }
    forall x, y | x in d.nodes && y in d.nodes && x != y && d.ino[x] == d.ino[y]
      ensures d.nodes[x] == d.nodes[y] && !d.nodes[x].Dir? && d.nlink[x] > 1
    {
      TwoNamesShare(p, n, x);
      TwoNamesShare(p, n, y);
    }
  }

  lemma TwoNamesShare(p: Path, n: Node, q: Path)
    requires SkippedName(p, n) && q in TwoNames(p, n)
    ensures q != [] ==> var d := TwoNamesDisk(p, n);
      q in d.ino && q in d.nlink && d.ino[q] == 1 && d.nodes[q] == n && !n.Dir? && d.nlink[q] > 1
    ensures q == [] ==> TwoNamesDisk(p, n).ino[q] == 0
  {
  }

  lemma TwoNamesFaithful(p: Path, n: Node)
    requires SkippedName(p, n)
    ensures Faithful(TwoNamesDisk(p, n), TwoNamesLayer(p, n))
  {
    var d, layer := TwoNamesDisk(p, n), TwoNamesLayer(p, n);
    TwoNamesDescribed(p, n);
    TwoNamesEntry(p, n, 0);
    TwoNamesEntry(p, n, 1);
    TwoNamesEntry(p, n, 2);
    hide EntryOk;
  }

  lemma TwoNamesDescribed(p: Path, n: Node)
    requires SkippedName(p, n)
    ensures var d, layer := TwoNamesDisk(p, n), TwoNamesLayer(p, n);
      && Described(d, layer, 1, []) && Described(d, layer, 2, []) && Described(d, layer, 2, p)
  {
    var d, layer := TwoNamesDisk(p, n), TwoNamesLayer(p, n);
    assert layer[0] == TarEntry([], BodyOf(d.nodes[[]])) && layer[1] == TarEntry(p, BodyOf(d.nodes[p]));
  }

  lemma TwoNamesEntry(p: Path, n: Node, i: nat)
    requires SkippedName(p, n) && i < 3
    requires var d, layer := TwoNamesDisk(p, n), TwoNamesLayer(p, n);
      && Described(d, layer, 1, []) && Described(d, layer, 2, []) && Described(d, layer, 2, p)
    ensures EntryOk(TwoNamesDisk(p, n), TwoNamesLayer(p, n), i)
  {
    hide Described, MarkerName;
    var b: Path := ["b"];
    assert p[..0] == [] && b[..0] == [] && |p| == |b| == 1;
    assert i == 0 || i == 1 || i == 2;
  }

  lemma TwoNamesVisible(p: Path, n: Node)
    requires SkippedName(p, n)
    ensures Visible({}, TwoNamesLayer(p, n)) && MarkersHarmless({}, TwoNamesDisk(p, n), TwoNamesLayer(p, n))
  {
    var layer := TwoNamesLayer(p, n);
    if p == [".wh.x"] {
      MarkerOfX();
    }
    assert !IsMarker([]) && !IsMarker(["b"]) && !IsMarker(["a"]);
    forall i | 0 <= i < |layer|
      ensures VisibleName({}, layer[i].name) && !Ignored({}, p) && Harmless({}, TwoNames(p, n), layer[i].name)
    {
      assert i == 0 || i == 1 || i == 2;
      TwoNamesPaths(p, n, ["x"]);
    }
  }

  lemma TwoNamesIsSnapshot(p: Path, n: Node)
    requires SkippedName(p, n)
    ensures SnapshotOf({}, BARE.nodes, TwoNamesDisk(p, n), TwoNamesLayer(p, n)) && Good(BARE)
    ensures NothingHeldBack({}, BARE.nodes, TwoNames(p, n))
  {
    TwoNamesSane(p, n);
    TwoNamesFaithful(p, n);
    TwoNamesVisible(p, n);
    TwoNamesWritten(p, n);
    hide Sane, Faithful, Visible, TwoNamesLayer, TwoNamesDisk;
    assert BARE.ino.Keys == BARE.nodes.Keys;
  }

  lemma TwoNamesWritten(p: Path, n: Node)
    requires SkippedName(p, n)
    ensures ChangesWritten({}, BARE.nodes, TwoNamesDisk(p, n), TwoNamesLayer(p, n))
    ensures [] in TwoNames(p, n) && TwoNamesDisk(p, n).nodes == TwoNames(p, n)
  {
    var d, layer := TwoNamesDisk(p, n), TwoNamesLayer(p, n);
    forall q | q in d.nodes && !Hidden({}, q) && At(BARE.nodes, q) != Some(d.nodes[q]) && !d.nodes[q].Special?
      ensures Written(layer, |layer|, q)
    {
      TwoNamesPaths(p, n, q);
      HiddenExact({}, q);
      assert layer[1].name == p && layer[2].name == ["b"];
    }
  }

  /** Without symbolic links there is none that could resist. */
  lemma {:induction false} NoLinkMeant(ign: IgnoreList, a: Nodes, d: Disk, layer: Layer, i: nat, q: Path)
    requires i <= |layer| && (forall p :: p in a ==> !a[p].Symlink?) && (forall p :: p in d.nodes ==> !d.nodes[p].Symlink?)
    ensures Expect(ign, a, d, layer, i, q).Some? ==> !Expect(ign, a, d, layer, i, q).value.Symlink?
  {
    hide Erases, LinksSkipped;
    if i > 0 {
      NoLinkMeant(ign, a, d, layer, i - 1, q);
    }
  }

  lemma NoLinksGiveWay(ign: IgnoreList, a: Nodes, d: Disk, layer: Layer)
    requires (forall p :: p in a ==> !a[p].Symlink?) && (forall p :: p in d.nodes ==> !d.nodes[p].Symlink?)
    ensures LinksGiveWay(ign, a, d, layer)
  {
    hide Expect;
    forall i | 0 <= i < |layer| ensures LinkGivesWay(ign, a, d, layer, i) {
      NoLinkMeant(ign, a, d, layer, i, layer[i].name);
    }
  }

  lemma SkippedNameFails(p: Path, n: Node)
    requires SkippedName(p, n)
    ensures SnapshotOf({}, BARE.nodes, TwoNamesDisk(p, n), TwoNamesLayer(p, n)) && Good(BARE)
    ensures LinksGiveWay({}, BARE.nodes, TwoNamesDisk(p, n), TwoNamesLayer(p, n))
    ensures MarkersHarmless({}, TwoNamesDisk(p, n), TwoNamesLayer(p, n)) && NothingHeldBack({}, BARE.nodes, TwoNames(p, n))
    ensures ApplyLayer({}, false, BARE, TwoNamesLayer(p, n)).Failed?
  {
    var d, layer := TwoNamesDisk(p, n), TwoNamesLayer(p, n);
    TwoNamesIsSnapshot(p, n);
    TwoNamesSane(p, n);
    TwoNamesFaithful(p, n);
    TwoNamesVisible(p, n);
    forall q | q in d.nodes ensures !d.nodes[q].Symlink? {
      TwoNamesPaths(p, n, q);
    }
    NoLinksGiveWay({}, BARE.nodes, d, layer);
    hide SnapshotOf, Good, LinksGiveWay, NothingHeldBack, MarkersHarmless, ApplyLayer, SkippedBack, Agree, Faithful, Sane, Steady;
    SecondNameMissed(p, n);
    HarmlessIsSteady({}, d, layer);
    ApplyUndoesDiff({}, BARE, d, layer);
  }

  lemma SecondNameMissed(p: Path, n: Node)
    requires SkippedName(p, n)
    ensures !LinksFound({}, BARE.nodes, TwoNamesDisk(p, n), TwoNamesLayer(p, n), 3)
  {
    var d, layer := TwoNamesDisk(p, n), TwoNamesLayer(p, n);
    if p == [".wh.x"] {
      MarkerOfX();
    }
    assert Skipped(d, p) && p !in BARE.nodes;
    assert !LinkFound({}, BARE.nodes, d, layer, 2);
  }

  /**
   * Two names of one new pipe: the second is written as a link to the first, which extraction skips, so
   * that extraction of the layer fails, though everything else about it is in order.
   */
  lemma LinkedPipesFail()
    ensures var d, layer := TwoNamesDisk(["a"], Special(false, 0)), TwoNamesLayer(["a"], Special(false, 0));
      && SnapshotOf({}, BARE.nodes, d, layer) && Good(BARE) && LinksGiveWay({}, BARE.nodes, d, layer)
      && MarkersHarmless({}, d, layer) && NothingHeldBack({}, BARE.nodes, d.nodes)
      && ApplyLayer({}, false, BARE, layer).Failed?
  {
    hide SnapshotOf, Good, LinksGiveWay, MarkersHarmless, NothingHeldBack, ApplyLayer;
    SkippedNameFails(["a"], Special(false, 0));
  }

  /** The same with a regular file of which one name is a marker's, for a path that is not there. */
  lemma LinkedMarkerFails()
    ensures var d, layer := TwoNamesDisk([".wh.x"], File(0, "")), TwoNamesLayer([".wh.x"], File(0, ""));
      && SnapshotOf({}, BARE.nodes, d, layer) && Good(BARE) && LinksGiveWay({}, BARE.nodes, d, layer)
      && MarkersHarmless({}, d, layer) && NothingHeldBack({}, BARE.nodes, d.nodes)
      && ApplyLayer({}, false, BARE, layer).Failed?
  {
    hide SnapshotOf, Good, LinksGiveWay, MarkersHarmless, NothingHeldBack, ApplyLayer;
    SkippedNameFails([".wh.x"], File(0, ""));
  }

  // ---------------------------------------------------------------------------------------------
  // A marker file whose path is there
  // ---------------------------------------------------------------------------------------------

  const S: Path := ["s"]
  const FOO: Path := ["s", "foo"]
  const MARKER: Path := ["s", ".wh.foo"]

  /** A file with a marker beside it, as a cached layer and a COPY leave it; the marker has the owner given. */
  function WithMarker(owner: int): Nodes {
    map[[] := Dir(0), S := Dir(0), FOO := File(0, "foo"), MARKER := File(owner, "")]
  }

  const MARKED_INO: map<Path, nat> := map[[] := 0, S := 1, FOO := 2, MARKER := 3]
  const OLD_MARKED: Tree := Tree(WithMarker(0), MARKED_INO, 4)
  const CHOWNED: Disk := Disk(WithMarker(1), MARKED_INO, map[[] := 3, S := 2, FOO := 1, MARKER := 1], map[])
  const MARKED_LAYER: Layer := [TarEntry([], DirBody(0)), TarEntry(S, DirBody(0)), TarEntry(MARKER, RegBody(1, ""))]

  lemma MarkedPaths(p: Path, owner: int)
    ensures p in WithMarker(owner) <==> p == [] || p == S || p == FOO || p == MARKER
    ensures p in WithMarker(owner) ==> Plain(p) && (p != [] ==> Parent(p) == if p == S then [] else S)
  {
  }

  lemma MarkerOfFoo()
    ensures IsMarker(MARKER) && Whited(MARKER) == FOO && !IsMarker(FOO) && !IsMarker(S)
    ensures MARKER[..0] == FOO[..0] == S[..0] == [] && MARKER[..1] == FOO[..1] == S
  {
    assert ".wh.foo"[|WHITEOUT_PREFIX|..] == "foo";
    assert Parent(MARKER) == S;
  }

  lemma MarkedClosed(owner: int)
    ensures Closed(WithMarker(owner)) && WithMarker(owner).Keys == MARKED_INO.Keys
  {
    forall p ensures p in WithMarker(owner) <==> p == [] || p == S || p == FOO || p == MARKER {
      MarkedPaths(p, owner);
    }
    forall p | p in WithMarker(owner) && p != [] ensures Parent(p) in WithMarker(owner) && WithMarker(owner)[Parent(p)].Dir? {
      MarkedPaths(p, owner);
    }
  }

  lemma MarkedInodes()
    ensures CHOWNED.ino.Keys == CHOWNED.nlink.Keys == CHOWNED.nodes.Keys
    ensures forall p, q :: p in MARKED_INO && q in MARKED_INO && p != q ==> MARKED_INO[p] != MARKED_INO[q]
    ensures forall p :: p in MARKED_INO ==> MARKED_INO[p] < 4
  {
    MarkedClosed(1);
    assert CHOWNED.nlink.Keys == CHOWNED.ino.Keys;
    hide Closed, WithMarker;
    forall p ensures p in MARKED_INO ==> MARKED_INO[p] == if p == [] then 0 else if p == S then 1 else if p == FOO then 2 else 3
      ensures p in MARKED_INO ==> p == [] || p == S || p == FOO || p == MARKER
    {
      MarkedPaths(p, 1);
    }
  }

  lemma MarkedSane()
    ensures Sane(CHOWNED)
  {
    MarkedClosed(1);
    MarkedInodes();
    hide Closed, Plain, WithMarker;
    forall p | p in CHOWNED.nodes ensures Plain(p) {
      MarkedPaths(p, 1);
    }
    SingleNamesSane(CHOWNED);
  }

  lemma MarkedGood()
    ensures Good(OLD_MARKED)
  {
    MarkedClosed(0);
    MarkedInodes();
    hide Closed;
  }

  lemma MarkedLayerFaithful()
    ensures Faithful(CHOWNED, MARKED_LAYER) && Visible({}, MARKED_LAYER)
  {
    MarkedDescribed();
    MarkedEntry(0);
    MarkedEntry(1);
    MarkedEntry(2);
    MarkedVisible();
    hide EntryOk, VisibleName;
  }

  lemma MarkedDescribed()
    ensures Described(CHOWNED, MARKED_LAYER, 1, []) && Described(CHOWNED, MARKED_LAYER, 2, []) && Described(CHOWNED, MARKED_LAYER, 2, S)
  {
    assert MARKED_LAYER[0] == TarEntry([], BodyOf(CHOWNED.nodes[[]])) && MARKED_LAYER[1] == TarEntry(S, BodyOf(CHOWNED.nodes[S]));
  }

  lemma MarkedEntry(i: nat)
    requires i < 3
    requires Described(CHOWNED, MARKED_LAYER, 1, []) && Described(CHOWNED, MARKED_LAYER, 2, []) && Described(CHOWNED, MARKED_LAYER, 2, S)
    ensures EntryOk(CHOWNED, MARKED_LAYER, i)
  {
    hide Described, MarkerName;
    MarkerOfFoo();
    assert i == 0 || i == 1 || i == 2;
  }

  lemma MarkedVisible()
    ensures forall i :: 0 <= i < 3 ==> VisibleName({}, MARKED_LAYER[i].name)
  {
    MarkerOfFoo();
    assert !Hidden({}, S) && !Hidden({}, []) && Parent(MARKER) == S;
    forall i | 0 <= i < 3 ensures VisibleName({}, MARKED_LAYER[i].name) {
      assert i == 0 || i == 1 || i == 2;
    }
  }

  lemma MarkedIsSnapshot()
    ensures SnapshotOf({}, OLD_MARKED.nodes, CHOWNED, MARKED_LAYER)
    ensures NothingHeldBack({}, OLD_MARKED.nodes, CHOWNED.nodes) && NoNewSpecial({}, OLD_MARKED.nodes, CHOWNED.nodes)
  {
    MarkedSane();
    MarkedLayerFaithful();
    MarkerOfFoo();
    hide Sane, Faithful, Visible;
    forall q | q in CHOWNED.nodes && !Hidden({}, q) ensures At(OLD_MARKED.nodes, q) == Some(CHOWNED.nodes[q]) {
      HiddenExact({}, q);
      MarkedPaths(q, 1);
    }
    MarkedClosed(0);
    MarkedClosed(1);
  }

  lemma MarkedOrder()
    ensures LinksGiveWay({}, OLD_MARKED.nodes, CHOWNED, MARKED_LAYER) && Steady({}, MARKED_LAYER)
    ensures MarkersUnlinked({}, CHOWNED)
    ensures LinksFound({}, OLD_MARKED.nodes, CHOWNED, MARKED_LAYER, |MARKED_LAYER|)
  {
    forall p | p in CHOWNED.nodes ensures !CHOWNED.nodes[p].Symlink? {
      MarkedPaths(p, 1);
    }
    forall p | p in OLD_MARKED.nodes ensures !OLD_MARKED.nodes[p].Symlink? {
      MarkedPaths(p, 0);
    }
    NoLinksGiveWay({}, OLD_MARKED.nodes, CHOWNED, MARKED_LAYER);
    MarkerOfFoo();
    forall p, q | p in MARKED_INO && q in MARKED_INO && IsMarker(p) && !Hidden({}, q) ensures MARKED_INO[p] != MARKED_INO[q] {
      HiddenExact({}, q);
      MarkedPaths(p, 0);
      MarkedPaths(q, 0);
    }
  }

  /**
   * A file with a marker's name whose path is on the disk: a change of its owner makes it an entry of the
   * layer, and extraction takes the entry for a whiteout and deletes the other file. Nothing else is wrong.
   */
  lemma MarkerFileErases()
    ensures SnapshotOf({}, OLD_MARKED.nodes, CHOWNED, MARKED_LAYER) && Good(OLD_MARKED)
    ensures Steady({}, MARKED_LAYER) && LinksGiveWay({}, OLD_MARKED.nodes, CHOWNED, MARKED_LAYER)
    ensures NoNewSpecial({}, OLD_MARKED.nodes, CHOWNED.nodes) && NothingHeldBack({}, OLD_MARKED.nodes, CHOWNED.nodes)
    ensures MarkersUnlinked({}, CHOWNED)
    ensures var r := ApplyLayer({}, false, OLD_MARKED, MARKED_LAYER);
      r.Done? && FOO in CHOWNED.nodes && FOO !in r.tree.nodes && !Agree({}, r.tree.nodes, CHOWNED.nodes)
  {
    MarkedSane();
    MarkedGood();
    MarkedIsSnapshot();
    MarkedOrder();
    MarkerOfFoo();
    assert Erases({}, MARKED_LAYER[2], FOO);
    assert !Hidden({}, FOO);
    hide SnapshotOf, Good, LinksGiveWay, NothingHeldBack, NoNewSpecial, MarkersUnlinked, ApplyLayer, Steady, LinksFound, Erases;
    hide NothingErased, SkippedBack, Sane;
    AccountIsTrue({}, OLD_MARKED.nodes, CHOWNED, MARKED_LAYER);
    ApplyUndoesDiff({}, OLD_MARKED, CHOWNED, MARKED_LAYER);
    ErasedIsLost({}, OLD_MARKED, CHOWNED, MARKED_LAYER, 2, FOO);
    var r := ApplyLayer({}, false, OLD_MARKED, MARKED_LAYER);
    assert At(r.tree.nodes, FOO) != At(CHOWNED.nodes, FOO);
  }
}

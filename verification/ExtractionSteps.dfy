/** What one tar entry does to a tree when every ancestor of its name is a real directory. */
module ExtractionSteps {
  import opened Paths
  import opened IgnoreLists
  import opened Disks
  import opened Extraction

  /** The trees that extraction works on. */
  ghost predicate Good(t: Tree) {
    && Closed(t.nodes)
    && t.ino.Keys == t.nodes.Keys
    && forall p :: p in t.ino ==> t.ino[p] < t.next
  }

  /** The name can be written to directly, and a directory can take it. */
  ghost predicate Ready(t: Tree, p: Path) {
    Good(t) && Plain(p) && Literal(t.nodes, p)
  }

  lemma LiteralParent(nodes: Nodes, p: Path)
    requires Literal(nodes, p) && p != []
    ensures IsDir(nodes, Parent(p)) && Literal(nodes, Parent(p))
  {
    var d := Parent(p);
    assert d == p[..|p| - 1];
    forall k | 0 <= k < |d| ensures IsDir(nodes, d[..k]) {
      assert d[..k] == p[..k];
    }
  }

  lemma PlainParent(p: Path)
    requires Plain(p)
    ensures Plain(Parent(p))
  {
  }

  /** Making the parent of a ready name changes nothing. */
  lemma ParentStands(t: Tree, p: Path)
    requires Ready(t, p) && p != []
    ensures MkdirAll(t, Parent(p), DIR_0755) == Done(t)
    ensures EnsureParent(t, p) == Done(t)
  {
    LiteralParent(t.nodes, p);
    PlainParent(p);
    StatLiteral(t.nodes, Parent(p));
  }

  lemma DropKeeps(t: Tree, p: Path)
    requires Good(t) && p != []
    ensures Good(Without(t, p))
  {
    var s := Without(t, p);
    assert !Below(p, ROOT);
    forall q | q in s.nodes && q != [] ensures Parent(q) in s.nodes && s.nodes[Parent(q)].Dir? {
      if Below(p, Parent(q)) {
        PrefixTransitive(p, Parent(q), q);
      }
    }
  }

  lemma DropLiteral(t: Tree, p: Path, q: Path)
    requires Literal(t.nodes, q) && !(p <= Parent(q)) && q != []
    ensures Literal(Without(t, p).nodes, q)
  {
    forall k | 0 <= k < |q| ensures IsDir(Without(t, p).nodes, q[..k]) {
      assert q[..k] <= Parent(q);
      if Below(p, q[..k]) {
        PrefixTransitive(p, q[..k], Parent(q));
      }
    }
  }

  /** Nothing is below a path that is not there. */
  lemma WithoutNothing(t: Tree, w: Path)
    requires Good(t) && w !in t.nodes
    ensures Without(t, w) == t
  {
    forall q | q in t.nodes ensures !Below(w, q) {
      if Below(w, q) {
        assert q[..|w|] == w;
        ClosedPrefix(t.nodes, q, |w|);
      }
    }
    assert Drop(t.nodes, w) == t.nodes && Drop(t.ino, w) == t.ino;
  }

  /** The tree with the directories above a name that were missing, each with the same attributes. */
  ghost predicate ParentsMade(t: Tree, p: Path, attr: int, r: Tree) {
    && Good(r) && Literal(r.nodes, p) && r.next >= t.next
    && (forall q :: q in r.nodes <==> q in t.nodes || q < p)
    && (forall q :: q in r.nodes ==> r.nodes[q] == if q in t.nodes then t.nodes[q] else Dir(attr))
    && (forall q :: q in t.ino ==> q in r.ino && r.ino[q] == t.ino[q])
  }

  lemma PrefixOfParent(q: Path, p: Path)
    requires p != []
    ensures q < p <==> q == Parent(p) || q < Parent(p)
  {
    assert Parent(p) + [Base(p)] == p;
    if q < p && |q| == |p| - 1 {
      assert q == p[..|q|];
    }
    if q < Parent(p) {
      assert q == Parent(p)[..|q|] == p[..|q|];
    }
  }

  lemma UnlinkedParent(nodes: Nodes, p: Path)
    requires Unlinked(nodes, p) && p != []
    ensures Unlinked(nodes, Parent(p)) && (Parent(p) in nodes ==> nodes[Parent(p)].Dir?)
  {
    var d := Parent(p);
    assert d == p[..|p| - 1];
    forall k | 0 <= k < |d| && d[..k] in nodes ensures nodes[d[..k]].Dir? {
      assert d[..k] == p[..k];
    }
  }

  /** `os.MkdirAll` makes the missing directories above a name and touches nothing else. */
  lemma {:induction false} ParentsMakeable(t: Tree, p: Path, attr: int)
    requires Good(t) && Plain(p) && Unlinked(t.nodes, p) && p != []
    ensures MkdirAll(t, Parent(p), attr).Done?
    ensures ParentsMade(t, p, attr, MkdirAll(t, Parent(p), attr).tree)
    ensures Parent(p) in t.nodes ==> MkdirAll(t, Parent(p), attr) == Done(t)
    decreases |p|
  {
    var d := Parent(p);
    UnlinkedParent(t.nodes, p);
    PlainParent(p);
    if d in t.nodes {
      ParentsStand(t, p, attr);
    } else {
      hide ParentsMade, Unlinked, Plain;
      StatUnlinkedAbsent(t.nodes, d);
      assert d != [] by { assert ROOT in t.nodes; }
      ParentsMakeable(t, d, attr);
      NextParentMade(t, p, attr, MkdirAll(t, Parent(d), attr).tree);
    }
  }

  lemma ParentsStand(t: Tree, p: Path, attr: int)
    requires Good(t) && Plain(p) && p != [] && IsDir(t.nodes, Parent(p))
    ensures MkdirAll(t, Parent(p), attr) == Done(t) && ParentsMade(t, p, attr, t)
  {
    var d := Parent(p);
    ClosedLiteral(t.nodes, d);
    PlainParent(p);
    StatLiteral(t.nodes, d);
    forall k | 0 <= k < |p| ensures IsDir(t.nodes, p[..k]) {
      if k < |d| { assert p[..k] == d[..k]; } else { assert p[..k] == d; }
    }
    forall q | q < p ensures q in t.nodes {
      assert q == p[..|q|];
    }
  }

  lemma NextParentMade(t: Tree, p: Path, attr: int, r: Tree)
    requires p != [] && Parent(p) != [] && Plain(p) && Parent(p) !in t.nodes && ParentsMade(t, Parent(p), attr, r)
    ensures var d := Parent(p);
      && Place(r.nodes, d) == Found(d) && d !in r.nodes && ParentsMade(t, p, attr, Create(r, d, Dir(attr)))
  {
    PlainParent(p);
    FreeOnceMade(t, Parent(p), attr, r);
    hide *;
    NextParentNodes(t, p, attr, r);
    AreMade(t, p, attr, Create(r, Parent(p), Dir(attr)));
  }

  lemma AreMade(t: Tree, p: Path, attr: int, r: Tree)
    requires Good(r) && Literal(r.nodes, p) && r.next >= t.next
    requires forall q :: q in r.nodes <==> q in t.nodes || q < p
    requires forall q :: q in r.nodes ==> r.nodes[q] == if q in t.nodes then t.nodes[q] else Dir(attr)
    requires forall q :: q in t.ino ==> q in r.ino && r.ino[q] == t.ino[q]
    ensures ParentsMade(t, p, attr, r)
  {
  }

  /** With its parents made, a missing path is free to be made. */
  lemma FreeOnceMade(t: Tree, d: Path, attr: int, r: Tree)
    requires d != [] && Plain(d) && d !in t.nodes && ParentsMade(t, d, attr, r)
    ensures Place(r.nodes, d) == Found(d) && d !in r.nodes && d !in t.ino && Good(Create(r, d, Dir(attr)))
  {
    assert d !in r.nodes;
    PlaceLiteral(r.nodes, d);
    CreateKeeps(r, d, Dir(attr));
  }

  /** Below a directory that has just been made the way is clear. */
  lemma ChildOfMade(r: Tree, p: Path, n: Node)
    requires p != [] && Literal(r.nodes, Parent(p)) && Parent(p) !in r.nodes && n.Dir?
    ensures Literal(Create(r, Parent(p), n).nodes, p)
  {
    var d := Parent(p);
    forall k | 0 <= k < |p| ensures IsDir(Create(r, d, n).nodes, p[..k]) {
      if k < |d| { assert p[..k] == d[..k] && IsDir(r.nodes, d[..k]); } else { assert p[..k] == d; }
    }
  }

  lemma NextParentNodes(t: Tree, p: Path, attr: int, r: Tree)
    requires p != [] && Parent(p) !in t.nodes && Parent(p) !in r.nodes && ParentsMade(t, Parent(p), attr, r)
    ensures var made := Create(r, Parent(p), Dir(attr));
      && Literal(made.nodes, p) && made.next >= t.next
      && (forall q :: q in made.nodes <==> q in t.nodes || q < p)
      && (forall q :: q in made.nodes ==> made.nodes[q] == if q in t.nodes then t.nodes[q] else Dir(attr))
      && (forall q :: q in t.ino ==> q in made.ino && made.ino[q] == t.ino[q])
  {
    hide Closed;
    var made := Create(r, Parent(p), Dir(attr));
    ChildOfMade(r, p, Dir(attr));
    forall q ensures q in made.nodes <==> q in t.nodes || q < p {
      PrefixOfParent(q, p);
    }
  }

  /** The same for the parent of a regular file. */
  lemma ParentEnsured(t: Tree, p: Path)
    requires Good(t) && Plain(p) && Unlinked(t.nodes, p) && p != []
    ensures EnsureParent(t, p) == MkdirAll(t, Parent(p), DIR_0755)
  {
    UnlinkedParent(t.nodes, p);
    PlainParent(p);
    ParentsMakeable(t, p, DIR_0755);
    if Parent(p) in t.nodes {
      ClosedLiteral(t.nodes, Parent(p));
      StatLiteral(t.nodes, Parent(p));
    } else {
      StatUnlinkedAbsent(t.nodes, Parent(p));
    }
  }

  /** Clearing a ready name removes exactly the subtree below it. */
  lemma Cleared(t: Tree, p: Path)
    requires Ready(t, p) && p != []
    ensures Clear(t, p).Done?
    ensures var c := Clear(t, p).tree;
      && Ready(c, p) && p !in c.nodes && c.next == t.next
      && c.nodes == Drop(t.nodes, p) && c.ino == Drop(t.ino, p)
  {
    PlaceLiteral(t.nodes, p);
    DropKeeps(t, p);
    assert !(p <= Parent(p));
    DropLiteral(t, p, p);
    assert Below(p, p);
    if p !in t.nodes {
      WithoutNothing(t, p);
    }
  }

  lemma CreateKeeps(t: Tree, p: Path, n: Node)
    requires Ready(t, p) && p != [] && p !in t.nodes
    ensures Good(Create(t, p, n))
  {
    LiteralParent(t.nodes, p);
    var s := Create(t, p, n);
    forall q | q in s.nodes && q != [] ensures Parent(q) in s.nodes && s.nodes[Parent(q)].Dir? {
      if q != p {
        assert Parent(q) != p;
      } else {
        assert Parent(q) != q;
      }
    }
  }

  /** Files and symbolic links replace whatever had their name, subtree included. */
  lemma Replaced(t: Tree, p: Path, n: Node)
    requires Ready(t, p) && p != []
    ensures Replace(t, p, n).Done?
    ensures var r := Replace(t, p, n).tree;
      && Good(r) && r.nodes == Drop(t.nodes, p)[p := n]
      && r.ino == Drop(t.ino, p)[p := t.next] && r.next == t.next + 1
  {
    Cleared(t, p);
    var c := Clear(t, p).tree;
    PlaceLiteral(c.nodes, p);
    CreateKeeps(c, p, n);
  }

  /** A hard link shares the node and the inode of its original. */
  lemma Linked(t: Tree, original: Path, p: Path)
    requires Ready(t, p) && p != [] && Plain(original) && !(p <= original)
    requires original in t.nodes && !t.nodes[original].Dir?
    ensures Clear(t, p).Done? && LinkAt(Clear(t, p).tree, original, p).Done?
    ensures var r := LinkAt(Clear(t, p).tree, original, p).tree;
      && Good(r) && r.nodes == Drop(t.nodes, p)[p := t.nodes[original]]
      && r.ino == Drop(t.ino, p)[p := t.ino[original]] && r.next == t.next
  {
    Cleared(t, p);
    var c := Clear(t, p).tree;
    PlaceLiteral(c.nodes, p);
    assert !Below(p, original);
    assert original in c.nodes;
    ClosedLiteral(c.nodes, original);
    PlaceLiteral(c.nodes, original);
    CreateKeeps(c, p, t.nodes[original]);
    var r := LinkAt(c, original, p).tree;
    assert r.nodes == Create(c, p, t.nodes[original]).nodes;
  }

  /** Without an original, or with a directory for one, a hard link fails. */
  lemma LinkResisted(t: Tree, original: Path, p: Path)
    requires Ready(t, p) && p != [] && Plain(original) && !(p <= original) && Unlinked(t.nodes, original)
    requires original in t.nodes ==> t.nodes[original].Dir?
    ensures Clear(t, p).Done? && LinkAt(Clear(t, p).tree, original, p).Failed?
  {
    Cleared(t, p);
    var c := Clear(t, p).tree;
    forall k | 0 <= k < |original| && original[..k] in c.nodes ensures c.nodes[original[..k]].Dir? {
    }
    PlaceUnlinked(c.nodes, original);
  }

  /** Something that `os.Stat` takes for a directory, or for nothing at all, stays in the way. */
  ghost predicate GivesWay(nodes: Nodes, p: Path) {
    p in nodes && nodes[p].Symlink? ==>
      match StatPath(nodes, p)
      case Found(q) => q in nodes && !nodes[q].Dir?
      case _ => false
  }

  lemma DirSet(t: Tree, p: Path, attr: int)
    requires Ready(t, p) && IsDir(t.nodes, p)
    ensures MkdirAll(t, p, attr) == Done(t)
    ensures SetAttr(t, p, attr) == Done(t.(nodes := t.nodes[p := Dir(attr)]))
    ensures Good(t.(nodes := t.nodes[p := Dir(attr)]))
  {
    StatLiteral(t.nodes, p);
    assert t.nodes[p := Dir(attr)].Keys == t.nodes.Keys;
  }

  lemma DirMadeFresh(t: Tree, p: Path, attr: int)
    requires Ready(t, p) && p !in t.nodes
    ensures MkdirAll(t, p, attr) == Done(Create(t, p, Dir(attr)))
    ensures Ready(Create(t, p, Dir(attr)), p)
  {
    StatAbsent(t.nodes, p);
    LiteralParent(t.nodes, p);
    PlainParent(p);
    StatLiteral(t.nodes, Parent(p));
    PlaceLiteral(t.nodes, p);
    CreateKeeps(t, p, Dir(attr));
  }

  /** Removing something that is no directory leaves the tree good and the name ready. */
  lemma NonDirRemoved(t: Tree, p: Path)
    requires Ready(t, p) && p in t.nodes && !t.nodes[p].Dir?
    ensures Remove(t, p).Done? && Ready(Remove(t, p).tree, p)
    ensures Remove(t, p).tree == t.(nodes := t.nodes - {p}, ino := t.ino - {p})
  {
    PlaceLiteral(t.nodes, p);
    var s := Remove(t, p).tree;
    forall q | q in s.nodes && q != [] ensures Parent(q) in s.nodes && s.nodes[Parent(q)].Dir? {
      assert Parent(q) != p;
    }
    forall k | 0 <= k < |p| ensures IsDir(s.nodes, p[..k]) {
      assert p[..k] != p;
    }
  }

  /** What making a directory under a name leaves: the same tree but for that name. */
  ghost predicate DirPlaced(t: Tree, p: Path, attr: int, r: Result) {
    && r.Done? && Good(r.tree) && r.tree.nodes == t.nodes[p := Dir(attr)] && r.tree.next >= t.next
    && forall q :: q in t.ino && q != p ==> q in r.tree.ino && r.tree.ino[q] == t.ino[q]
  }

  lemma DirMadeNew(t: Tree, p: Path, attr: int)
    requires Ready(t, p) && p !in t.nodes
    ensures DirPlaced(t, p, attr, MakeDir(t, p, attr))
  {
    DirMadeFresh(t, p, attr);
    DirSet(Create(t, p, Dir(attr)), p, attr);
  }

  lemma ClearedForDir(t: Tree, p: Path)
    requires Ready(t, p) && GivesWay(t.nodes, p) && p in t.nodes && !t.nodes[p].Dir?
    ensures ClearForDir(t, p) == Remove(t, p)
  {
    if !t.nodes[p].Symlink? {
      StatLiteral(t.nodes, p);
    }
  }

  lemma DirMadeOver(t: Tree, p: Path, attr: int)
    requires Ready(t, p) && GivesWay(t.nodes, p) && p in t.nodes && !t.nodes[p].Dir?
    ensures DirPlaced(t, p, attr, MkdirAllWithPermissions(t, p, attr))
  {
    hide Ready, Good, GivesWay, Remove, ClearForDir, MakeDir;
    ClearedForDir(t, p);
    NonDirRemoved(t, p);
    var c := Remove(t, p).tree;
    DirMadeNew(c, p, attr);
    var r := MakeDir(c, p, attr);
    assert c.nodes[p := Dir(attr)] == t.nodes[p := Dir(attr)];
    assert DirPlaced(t, p, attr, r);
  }

  /** A directory entry that nothing resists puts a directory under its name and keeps the rest. */
  lemma DirMade(t: Tree, p: Path, attr: int)
    requires Ready(t, p) && GivesWay(t.nodes, p)
    ensures DirPlaced(t, p, attr, MkdirAllWithPermissions(t, p, attr))
  {
    if IsDir(t.nodes, p) {
      StatLiteral(t.nodes, p);
      DirSet(t, p, attr);
    } else if p !in t.nodes {
      StatAbsent(t.nodes, p);
      DirMadeNew(t, p, attr);
    } else {
      DirMadeOver(t, p, attr);
    }
  }

  /** Removing a whited-out path below directories, if they are there, removes exactly its subtree. */
  lemma WhitedOut(t: Tree, w: Path)
    requires Good(t) && Plain(w) && Unlinked(t.nodes, w) && w != []
    ensures RemoveAll(t, w) == Done(Without(t, w)) && Good(Without(t, w))
  {
    PlaceUnlinked(t.nodes, w);
    DropKeeps(t, w);
    if w !in t.nodes {
      WithoutNothing(t, w);
    } else {
      ClosedLiteral(t.nodes, w);
    }
  }

  // ---------------------------------------------------------------------------------------------
  // Behind files
  // ---------------------------------------------------------------------------------------------

  /** A file, or something special, that is where its path says. */
  ghost predicate FileAt(nodes: Nodes, p: Path) {
    Literal(nodes, p) && Plain(p) && p in nodes && !nodes[p].Symlink? && !nodes[p].Dir?
  }

  lemma {:induction false} NoDirBehindFile(t: Tree, p: Path, tail: seq<Name>, attr: int)
    requires FileAt(t.nodes, p)
    ensures MkdirAll(t, p + tail, attr).Failed?
    decreases |tail|
  {
    if tail == [] {
      assert p + tail == p;
      StatLiteral(t.nodes, p);
    } else {
      NothingBehindFiles(t.nodes, p, tail);
      assert Parent(p + tail) == p + tail[..|tail| - 1];
      NoDirBehindFile(t, p, tail[..|tail| - 1], attr);
    }
  }

  /** Extraction fails at an entry that is for a path behind a file, and at a whiteout of one. */
  lemma BehindFileFails(ign: IgnoreList, keep: bool, t: Tree, e: TarEntry, p: Path)
    requires FileAt(t.nodes, p) && p < (if IsMarker(e.name) then Whited(e.name) else e.name)
    requires if IsMarker(e.name) then !Ignored(ign, Whited(e.name)) && !HoldsIgnored(ign, Whited(e.name))
             else !Ignored(ign, e.name) && !e.body.SpecialBody? && (e.body.HardlinkBody? ==> !Ignored(ign, e.body.original))
    ensures ApplyEntry(ign, keep, t, e).Failed?
  {
    hide Ignored, HoldsIgnored, FileAt, Place, StatPath, MkdirAll;
    var q := if IsMarker(e.name) then Whited(e.name) else e.name;
    var tail := q[|p|..];
    assert q == p + tail && Parent(q) == p + tail[..|tail| - 1];
    FileStats(t, p, tail);
    NoDirBehindFile(t, p, tail[..|tail| - 1], DIR_0755);
  }

  lemma FileStats(t: Tree, p: Path, tail: seq<Name>)
    requires FileAt(t.nodes, p) && tail != []
    ensures StatPath(t.nodes, p + tail) == Place(t.nodes, p + tail) == Broken
    ensures var up := p + tail[..|tail| - 1];
      StatPath(t.nodes, up) == (if |tail| == 1 then Found(p) else Broken) && !IsDir(t.nodes, p)
  {
    NothingBehindFiles(t.nodes, p, tail);
    if |tail| == 1 {
      assert p + tail[..0] == p;
      StatLiteral(t.nodes, p);
    } else {
      NothingBehindFiles(t.nodes, p, tail[..|tail| - 1]);
    }
  }
}

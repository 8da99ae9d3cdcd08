/** `DeleteFilesystem`: what is left of a file system after a stage. */
module DeleteFs {
  import opened Paths
  import opened IgnoreLists
  import opened Disks

  /** The root, every path at or below an ignore entry, and every path above one. */
  predicate Survives(ign: IgnoreList, p: Path) {
    p == ROOT || exists e :: e in ign && (e <= p || p <= e)
  }

  /** The two questions that the code asks of the list tell exactly what survives. */
  lemma SurvivesExact(ign: IgnoreList, p: Path)
    requires Proper(ign)
    ensures Survives(ign, p) <==> p == ROOT || Ignored(ign, p) || HoldsIgnored(ign, p)
  {
    hide Ignored, HoldsIgnored;
    IgnoredExact(ign, p);
    HoldsIgnoredExact(ign, p);
  }

  /** What is left when everything at or below one of the paths is up for deletion. */
  function Left(ign: IgnoreList, nodes: Nodes, below: set<Path>): (left: Nodes)
    ensures left.Keys <= nodes.Keys
  {
    map q | q in nodes && (Survives(ign, q) || forall p :: p in below ==> !(p <= q)) :: nodes[q]
  }

  /** What survives keeps the directories it is in. */
  lemma ParentSurvives(ign: IgnoreList, p: Path)
    requires Proper(ign) && p != [] && Survives(ign, p)
    ensures Survives(ign, Parent(p))
  {
    var e :| e in ign && (e <= p || p <= e);
    assert Parent(p) <= p;
    if p <= e {
      PrefixTransitive(Parent(p), p, e);
    } else {
      PrefixesCompare(e, Parent(p), p);
    }
  }

  lemma LeftClosed(ign: IgnoreList, nodes: Nodes, below: set<Path>)
    requires Proper(ign) && Closed(nodes)
    ensures Closed(Left(ign, nodes, below))
  {
    var left := Left(ign, nodes, below);
    forall q | q in left && q != [] ensures Parent(q) in left && left[Parent(q)].Dir? {
      if Survives(ign, q) {
        ParentSurvives(ign, q);
      } else {
        forall p | p in below ensures !(p <= Parent(q)) {
          if p <= Parent(q) {
            PrefixTransitive(p, Parent(q), q);
          }
        }
      }
    }
  }

  /** What has something surviving below it survives too. */
  lemma SurvivesAbove(ign: IgnoreList, p: Path, q: Path)
    requires Proper(ign) && p <= q && Survives(ign, q)
    ensures Survives(ign, p)
  {
    if q != ROOT {
      var e :| e in ign && (e <= q || q <= e);
      if e <= q {
        PrefixesCompare(e, p, q);
      } else {
        PrefixTransitive(p, q, e);
      }
    }
  }

  lemma NothingLeftBelow(ign: IgnoreList, nodes: Nodes, p: Path)
    requires Proper(ign) && !Survives(ign, p)
    ensures Left(ign, nodes, {p}) == map q | q in nodes && !(p <= q) :: nodes[q]
  {
    forall q | q in nodes && p <= q ensures !Survives(ign, q) {
      if Survives(ign, q) {
        SurvivesAbove(ign, p, q);
      }
    }
  }

  /** All of an ignored directory is left. */
  lemma AllLeftBelow(ign: IgnoreList, nodes: Nodes, p: Path)
    requires Proper(ign) && Ignored(ign, p)
    ensures Left(ign, nodes, {p}) == nodes
  {
    forall q | q in nodes && p <= q ensures Survives(ign, q) {
      HiddenBelow(ign, p, q);
      SurvivesExact(ign, q);
    }
  }

  lemma AboveIsDir(nodes: Nodes, p: Path, q: Path)
    requires Closed(nodes) && q in nodes && p < q
    ensures IsDir(nodes, p)
  {
    ClosedPrefix(nodes, q, |p|);
    assert q[..|p|] == p;
  }

  /** Everything below a directory is at or below one of its children. */
  lemma BelowChild(nodes: Nodes, p: Path, children: set<Path>, q: Path)
    requires Closed(nodes) && forall c :: c in children <==> c in nodes && c != [] && Parent(c) == p
    requires q in nodes && q != p
    ensures p <= q <==> exists c :: c in children && c <= q
  {
    if p <= q {
      var c := q[..|p| + 1];
      ClosedPrefix(nodes, q, |p| + 1);
      assert Parent(c) == p && c in children && c <= q;
    }
    forall c | c in children && c <= q ensures p <= q {
      PrefixTransitive(Parent(c), c, q);
    }
  }

  lemma ChildrenCover(ign: IgnoreList, nodes: Nodes, p: Path, children: set<Path>)
    requires Closed(nodes) && Survives(ign, p)
    requires forall c :: c in children <==> c in nodes && c != [] && Parent(c) == p
    ensures Left(ign, nodes, children) == Left(ign, nodes, {p})
  {
    hide Survives, Closed;
    forall q | q in nodes && q != p ensures p <= q <==> exists c :: c in children && c <= q {
      BelowChild(nodes, p, children, q);
    }
    forall c | c in children ensures !(c <= p) {
    }
  }

  /** The paths of the names in a directory. */
  function Named(p: Path, names: set<Name>): set<Path> {
    set name | name in names :: p + [name]
  }

  lemma NamesCover(ign: IgnoreList, nodes: Nodes, p: Path, names: set<Name>, children: set<Path>)
    requires Closed(nodes) && Survives(ign, p)
    requires (forall name :: name in names <==> p + [name] in nodes) && children == Named(p, names)
    ensures Left(ign, nodes, children) == Left(ign, nodes, {p})
  {
    forall c ensures c in children <==> c in nodes && c != [] && Parent(c) == p {
      if c in nodes && c != [] && Parent(c) == p {
        assert c == p + [Base(c)];
      }
    }
    ChildrenCover(ign, nodes, p, children);
  }

  lemma NothingDone(ign: IgnoreList, nodes: Nodes, p: Path)
    ensures Left(ign, nodes, {}) == nodes && Named(p, {}) == {}
  {
  }

  lemma OneMoreNamed(p: Path, names: set<Name>, name: Name)
    ensures Named(p, names + {name}) == Named(p, names) + {p + [name]}
  {
  }

  lemma OtherChildren(p: Path, names: set<Name>, name: Name)
    requires name !in names
    ensures forall c :: c in Named(p, names) ==> c != p + [name] && c != [] && Parent(c) == p
  {
    forall other | other in names ensures p + [other] != p + [name] {
      assert (p + [other])[|p|] == other;
    }
  }

  /** The next child is still there after the ones before it, unless the directory itself is gone. */
  lemma NextChild(ign: IgnoreList, nodes: Nodes, p: Path, name: Name, done: set<Path>)
    requires p + [name] in nodes && forall c :: c in done ==> c != p + [name] && c != [] && Parent(c) == p
    ensures p + [name] in Left(ign, nodes, done)
    ensures !Survives(ign, p) && Proper(ign) ==> p + [name] !in Left(ign, nodes, {p})
  {
    forall c | c in done ensures !(c <= p + [name]) {
      assert |c| == |p| + 1;
    }
    if !Survives(ign, p) && Proper(ign) && Survives(ign, p + [name]) {
      SurvivesAbove(ign, p, p + [name]);
    }
  }

  lemma NothingBelowFile(ign: IgnoreList, nodes: Nodes, p: Path)
    requires Closed(nodes) && p in nodes && !nodes[p].Dir?
    ensures Survives(ign, p) ==> Left(ign, nodes, {p}) == nodes
  {
    forall q | q in nodes && p <= q ensures q == p {
      if p != q {
        AboveIsDir(nodes, p, q);
      }
    }
  }

  lemma LeftTwice(ign: IgnoreList, nodes: Nodes, below: set<Path>, p: Path)
    ensures Left(ign, Left(ign, nodes, below), {p}) == Left(ign, nodes, below + {p})
  {
  }

  class FileSystem {
    var nodes: Nodes
    const ignorelist: IgnoreList

    constructor (nodes: Nodes, ignorelist: IgnoreList)
      ensures this.nodes == nodes && this.ignorelist == ignorelist
    {
      this.nodes, this.ignorelist := nodes, ignorelist;
    }

    method RemoveAll(p: Path)
      modifies this
      ensures nodes == map q | q in old(nodes) && !(p <= q) :: old(nodes)[q]
    {
      nodes := map q | q in nodes && !(p <= q) :: nodes[q];
    }

    /** The callback: deletes the path, unless it is ignored or holds something ignored. */
    method Visit(p: Path, isDir: bool) returns (skip: bool)
      requires p in nodes && Proper(ignorelist)
      modifies this
      ensures nodes == if Survives(ignorelist, p) then old(nodes) else map q | q in old(nodes) && !(p <= q) :: old(nodes)[q]
      ensures skip <==> Ignored(ignorelist, p) && isDir && StatPath(old(nodes), p).Found?
    {
      SurvivesExact(ignorelist, p);
      if Ignored(ignorelist, p) {
        if !StatPath(nodes, p).Found? {
          return false;
        }
        return isDir;
      }
      if HoldsIgnored(ignorelist, p) {
        return false;
      }
      if p == ROOT {
        return false;
      }
      RemoveAll(p);
      return false;
    }

    function NamesIn(p: Path): (names: set<Name>)
      reads this
      ensures forall name :: name in names <==> p + [name] in nodes
    {
      assert forall name :: p + [name] in nodes ==> Parent(p + [name]) == p && Base(p + [name]) == name;
      assert forall q: Path :: q != [] && Parent(q) == p ==> p + [Base(q)] == q;
      set q | q in nodes && q != [] && Parent(q) == p :: Base(q)
    }

    /** `filepath.Walk` from one path on: the names are read before the callback is called. */
    method Walk(p: Path, ghost depth: nat)
      requires Proper(ignorelist) && Closed(nodes) && p in nodes && forall q :: q in nodes ==> |q| <= depth
      modifies this
      ensures nodes == Left(ignorelist, old(nodes), {p}) && Closed(nodes)
      decreases depth - |p|, 1
    {
      var isDir := nodes[p].Dir?;
      var names := if isDir then NamesIn(p) else {};
      var skip := Visit(p, isDir);
      if !Survives(ignorelist, p) {
        NothingLeftBelow(ignorelist, old(nodes), p);
      }
      if !isDir {
        NothingBelowFile(ignorelist, old(nodes), p);
      } else if skip {
        AllLeftBelow(ignorelist, old(nodes), p);
      } else {
        WalkChildren(p, names, depth, old(nodes));
      }
      LeftClosed(ignorelist, old(nodes), {p});
    }

    /** The loop over the names; a file that is gone by now is an error, which is ignored. */
    method WalkChildren(p: Path, names: set<Name>, ghost depth: nat, ghost was: Nodes)
      requires Proper(ignorelist) && Closed(was) && p in was && forall q :: q in was ==> |q| <= depth
      requires forall name :: name in names <==> p + [name] in was
      requires nodes == if Survives(ignorelist, p) then was else Left(ignorelist, was, {p})
      modifies this
      ensures nodes == Left(ignorelist, was, {p})
      decreases depth - |p|, 0
    {
      hide *;
      var names := names;
      ghost var all, done: set<Path> := names, {};
      NothingDone(ignorelist, was, p);
      assert names - names == {};
      while names != {}
        invariant names <= all && done == Named(p, all - names)
        invariant nodes == Left(ignorelist, was, if Survives(ignorelist, p) then done else {p})
        decreases |names|
      {
        var name :| name in names;
        assert all - names == all - (names - {name}) - {name};
        names := names - {name};
        ghost var before, past := done, all - names - {name};
        assert past + {name} == all - names;
        OtherChildren(p, past, name);
        OneMoreNamed(p, past, name);
        NextChild(ignorelist, was, p, name, before);
        done := done + {p + [name]};
        if p + [name] in nodes {
          LeftClosed(ignorelist, was, before);
          Walk(p + [name], depth);
          LeftTwice(ignorelist, was, before, p + [name]);
        }
      }
      if Survives(ignorelist, p) {
        assert all - names == all;
        NamesCover(ignorelist, was, p, all, done);
      }
    }

    method DeleteFilesystem()
      requires Proper(ignorelist) && Closed(nodes)
      modifies this
      ensures Closed(nodes)
      ensures forall p :: p in nodes <==> p in old(nodes) && (p == ROOT || exists e :: e in ignorelist && (e <= p || p <= e))
      ensures forall p :: p in nodes ==> nodes[p] == old(nodes)[p]
    {
      Walk(ROOT, Depth(nodes.Keys));
    }
  }
}

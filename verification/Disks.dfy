/** File system trees, and the way the kernel and the Go library resolve paths in them. */
module Disks {
  import opened Paths

  /** The text of a symbolic link: where it starts from and the components it walks. */
  datatype Target = Target(absolute: bool, parts: seq<Name>)

  /** What a layer restores of a file system object. */
  datatype Node =
    | Dir(attr: int)
    | File(attr: int, data: string)
    | Symlink(target: Target)
    | Special(socket: bool, attr: int)  // sockets, pipes and devices

  type Nodes = map<Path, Node>

  /** Every path but the root has a directory as its parent. */
  predicate Closed(nodes: Nodes) {
    && ROOT in nodes && nodes[ROOT].Dir?
    && forall p :: p in nodes && p != [] ==> Parent(p) in nodes && nodes[Parent(p)].Dir?
  }

  predicate IsDir(nodes: Nodes, p: Path) {
    p in nodes && nodes[p].Dir?
  }

  /** All proper ancestors are real directories, so the path resolves to itself. */
  predicate Literal(nodes: Nodes, p: Path) {
    forall k :: 0 <= k < |p| ==> IsDir(nodes, p[..k])
  }

  lemma ClosedPrefix(nodes: Nodes, p: Path, k: nat)
    requires Closed(nodes) && p in nodes && k <= |p|
    ensures p[..k] in nodes
    ensures k < |p| ==> IsDir(nodes, p[..k])
    decreases |p| - k
  {
    if k < |p| {
      ClosedPrefix(nodes, p, k + 1);
      assert Parent(p[..k + 1]) == p[..k];
    } else {
      assert p[..k] == p;
    }
  }

  lemma ClosedLiteral(nodes: Nodes, p: Path)
    requires Closed(nodes) && p in nodes
    ensures Literal(nodes, p)
  {
    forall k | 0 <= k < |p| ensures IsDir(nodes, p[..k]) {
      ClosedPrefix(nodes, p, k);
    }
  }

  datatype Lookup = Found(path: Path) | Missing | Broken

  /** The kernel gives up after 40 links, `filepath.EvalSymlinks` after 255. */
  const KERNEL_LINKS: nat := 40
  const EVAL_LINKS: nat := 255

  /** Walks the components of `rest` from the real directory `cur`, following every link. */
  function Follow(nodes: Nodes, cur: Path, rest: seq<Name>, links: nat): Lookup
    decreases links, |rest|
  {
    if cur !in nodes then Missing
    else if rest == [] then Found(cur)
    else if !nodes[cur].Dir? then Broken
    else if rest[0] == ".." then Follow(nodes, Parent(cur), rest[1..], links)
    else
      var next := cur + [rest[0]];
      if next !in nodes then Missing
      else if !nodes[next].Symlink? then Follow(nodes, next, rest[1..], links)
      else if links == 0 then Broken
      else
        var t := nodes[next].target;
        Follow(nodes, if t.absolute then [] else cur, t.parts + rest[1..], links - 1)
  }

  /** `os.Stat`: follows links in every component. */
  function StatPath(nodes: Nodes, p: Path): Lookup {
    Follow(nodes, [], p, KERNEL_LINKS)
  }

  /** `filepath.EvalSymlinks`. */
  function EvalSymlinks(nodes: Nodes, p: Path): Lookup {
    Follow(nodes, [], p, EVAL_LINKS)
  }

  /** Where a name lives: links in the parent are followed, the last component is kept. */
  function Place(nodes: Nodes, p: Path): Lookup {
    if p == [] then Found([])
    else
      match StatPath(nodes, Parent(p))
      case Found(d) => if IsDir(nodes, d) then Found(d + [Base(p)]) else Broken
      case r => r
  }

  /** `os.Lstat`: does the name itself exist? */
  function Lstat(nodes: Nodes, p: Path): Lookup {
    match Place(nodes, p)
    case Found(q) => if q in nodes then Found(q) else Missing
    case r => r
  }

  /** Past a path with literal ancestors that is no link, following goes on from there. */
  lemma {:induction false} FollowOn(nodes: Nodes, cur: Path, rest: seq<Name>, tail: seq<Name>, links: nat)
    requires Literal(nodes, cur + rest) && cur + rest in nodes && Plain(rest) && !nodes[cur + rest].Symlink?
    ensures Follow(nodes, cur, rest + tail, links) == Follow(nodes, cur + rest, tail, links)
    decreases |rest|
  {
    if rest == [] {
      assert cur + rest == cur && rest + tail == tail;
    } else {
      var next := cur + [rest[0]];
      assert cur == (cur + rest)[..|cur|];
      assert next + rest[1..] == cur + rest;
      assert (rest + tail)[1..] == rest[1..] + tail;
      if |rest| == 1 {
        assert next == cur + rest;
      } else {
        assert next == (cur + rest)[..|next|];
      }
      FollowOn(nodes, next, rest[1..], tail, links);
    }
  }

  lemma FollowLiteral(nodes: Nodes, cur: Path, rest: seq<Name>, links: nat)
    requires Literal(nodes, cur + rest) && cur + rest in nodes && Plain(rest)
    requires !nodes[cur + rest].Symlink?
    ensures Follow(nodes, cur, rest, links) == Found(cur + rest)
  {
    assert rest + [] == rest;
    FollowOn(nodes, cur, rest, [], links);
  }

  /** A path whose ancestors are real directories and that is no link resolves to itself. */
  lemma StatLiteral(nodes: Nodes, p: Path)
    requires Literal(nodes, p) && Plain(p) && p in nodes && !nodes[p].Symlink?
    ensures StatPath(nodes, p) == EvalSymlinks(nodes, p) == Found(p)
  {
    assert [] + p == p;
    FollowLiteral(nodes, [], p, KERNEL_LINKS);
    FollowLiteral(nodes, [], p, EVAL_LINKS);
  }

  lemma PlaceLiteral(nodes: Nodes, p: Path)
    requires Literal(nodes, p) && Plain(p) && ROOT in nodes
    ensures Place(nodes, p) == Found(p)
  {
    if p != [] {
      var d := Parent(p);
      assert d == p[..|p| - 1];
      forall k | 0 <= k < |d| ensures IsDir(nodes, d[..k]) {
        assert d[..k] == p[..k];
      }
      assert IsDir(nodes, d);
      StatLiteral(nodes, d);
      assert d + [Base(p)] == p;
    }
  }

  /** Where a path with literal ancestors does not exist, following it and anything behind it ends. */
  lemma {:induction false} FollowAbsent(nodes: Nodes, cur: Path, rest: seq<Name>, tail: seq<Name>, links: nat)
    requires Literal(nodes, cur + rest) && cur + rest !in nodes && Plain(rest)
    ensures Follow(nodes, cur, rest + tail, links) == Missing
    decreases |rest|
  {
    if rest == [] {
      assert cur + rest == cur;
    } else {
      var next := cur + [rest[0]];
      assert cur == (cur + rest)[..|cur|];
      assert next + rest[1..] == cur + rest;
      assert (rest + tail)[1..] == rest[1..] + tail;
      if |rest| == 1 {
        assert next == cur + rest;
      } else {
        assert next == (cur + rest)[..|next|];
        FollowAbsent(nodes, next, rest[1..], tail, links);
      }
    }
  }

  lemma StatAbsent(nodes: Nodes, p: Path)
    requires Literal(nodes, p) && Plain(p) && p !in nodes
    ensures StatPath(nodes, p) == Missing
  {
    assert [] + p == p && p + [] == p;
    FollowAbsent(nodes, [], p, [], KERNEL_LINKS);
  }

  /** Whatever stands above the path is a directory; some of it may be missing. */
  predicate Unlinked(nodes: Nodes, p: Path) {
    forall k :: 0 <= k < |p| && p[..k] in nodes ==> nodes[p[..k]].Dir?
  }

  lemma {:induction false} FirstGap(nodes: Nodes, p: Path, n: nat) returns (k: nat)
    requires Unlinked(nodes, p) && n < |p| && !IsDir(nodes, p[..n])
    ensures k <= n && p[..k] !in nodes && Literal(nodes, p[..k])
  {
    if j :| 0 <= j < n && !IsDir(nodes, p[..j]) {
      k := FirstGap(nodes, p, j);
    } else {
      k := n;
      assert forall j :: 0 <= j < n ==> p[..n][..j] == p[..j];
    }
  }

  /** A name below directories, some of which may be missing, is where it says, or nowhere. */
  lemma PlaceUnlinked(nodes: Nodes, p: Path)
    requires Closed(nodes) && Plain(p) && Unlinked(nodes, p)
    ensures Place(nodes, p) == if Literal(nodes, p) then Found(p) else Missing
    ensures Lstat(nodes, p) == if p in nodes then Found(p) else Missing
  {
    if p in nodes {
      ClosedLiteral(nodes, p);
    }
    if Literal(nodes, p) {
      PlaceLiteral(nodes, p);
    } else {
      var n :| 0 <= n < |p| && !IsDir(nodes, p[..n]);
      var k := FirstGap(nodes, p, n);
      var tail := p[k..|p| - 1];
      assert p[..k] + tail == Parent(p) && [] + p[..k] == p[..k];
      FollowAbsent(nodes, [], p[..k], tail, KERNEL_LINKS);
    }
  }

  /** Below directories, some of which may be missing, `os.Stat` says of what is not there that it is not. */
  lemma StatUnlinkedAbsent(nodes: Nodes, p: Path)
    requires Closed(nodes) && Plain(p) && Unlinked(nodes, p) && p !in nodes
    ensures StatPath(nodes, p) == Missing
  {
    if Literal(nodes, p) {
      StatAbsent(nodes, p);
    } else {
      var n :| 0 <= n < |p| && !IsDir(nodes, p[..n]);
      var k := FirstGap(nodes, p, n);
      assert p[..k] + p[k..] == p && [] + p[..k] == p[..k];
      FollowAbsent(nodes, [], p[..k], p[k..], KERNEL_LINKS);
    }
  }

  /** No link lies on the path: itself and all its ancestors are real. */
  predicate Real(nodes: Nodes, p: Path) {
    p in nodes && !nodes[p].Symlink? && Literal(nodes, p)
  }

  /** Whatever following links finds, it finds under its real name. */
  lemma {:induction false} FollowFindsReal(nodes: Nodes, cur: Path, rest: seq<Name>, links: nat)
    requires Real(nodes, cur)
    ensures Follow(nodes, cur, rest, links).Found? ==> Real(nodes, Follow(nodes, cur, rest, links).path)
    decreases links, |rest|
  {
    if rest != [] && nodes[cur].Dir? {
      if rest[0] == ".." {
        RealPrefix(nodes, cur);
        FollowFindsReal(nodes, Parent(cur), rest[1..], links);
      } else {
        var next := cur + [rest[0]];
        if next in nodes {
          if !nodes[next].Symlink? {
            forall k | 0 <= k < |next| ensures IsDir(nodes, next[..k]) {
              if k < |cur| { assert next[..k] == cur[..k]; } else { assert next[..k] == cur; }
            }
            FollowFindsReal(nodes, next, rest[1..], links);
          } else if links > 0 {
            var t := nodes[next].target;
            if t.absolute {
              if cur != [] { assert cur[..0] == []; }
              FollowFindsReal(nodes, [], t.parts + rest[1..], links - 1);
            } else {
              FollowFindsReal(nodes, cur, t.parts + rest[1..], links - 1);
            }
          }
        }
      }
    }
  }

  lemma RealPrefix(nodes: Nodes, p: Path)
    requires Real(nodes, p)
    ensures Real(nodes, Parent(p))
  {
    if p != [] {
      var d := Parent(p);
      assert d == p[..|p| - 1];
      forall k | 0 <= k < |d| ensures IsDir(nodes, d[..k]) {
        assert d[..k] == p[..k];
      }
    }
  }

  // ---------------------------------------------------------------------------------------------
  // Where links lead
  // ---------------------------------------------------------------------------------------------

  /** Where components lead from a directory, one after the other. */
  function Walked(cur: Path, rest: seq<Name>): Path
    decreases |rest|
  {
    if rest == [] then cur else Walked(if rest[0] == ".." then Parent(cur) else cur + [rest[0]], rest[1..])
  }

  /** On that way there is a directory at every turn, and no link at its end. */
  predicate Passable(nodes: Nodes, cur: Path, rest: seq<Name>)
    decreases |rest|
  {
    && cur in nodes && !nodes[cur].Symlink?
    && (rest != [] ==> nodes[cur].Dir? && Passable(nodes, if rest[0] == ".." then Parent(cur) else cur + [rest[0]], rest[1..]))
  }

  lemma {:induction false} FollowPassable(nodes: Nodes, cur: Path, rest: seq<Name>, links: nat)
    requires Passable(nodes, cur, rest)
    ensures Follow(nodes, cur, rest, links) == Found(Walked(cur, rest))
    decreases |rest|
  {
    if rest != [] {
      FollowPassable(nodes, if rest[0] == ".." then Parent(cur) else cur + [rest[0]], rest[1..], links);
    }
  }

  lemma {:induction false} FollowToLink(nodes: Nodes, cur: Path, rest: seq<Name>, tail: seq<Name>, links: nat)
    requires rest != [] && Plain(rest) && Literal(nodes, cur + rest) && cur + rest in nodes && nodes[cur + rest].Symlink?
    ensures var p := cur + rest;
      Follow(nodes, cur, rest + tail, links)
      == if links == 0 then Broken
         else Follow(nodes, if nodes[p].target.absolute then [] else Parent(p), nodes[p].target.parts + tail, links - 1)
    decreases |rest|
  {
    var p, next := cur + rest, cur + [rest[0]];
    assert cur == p[..|cur|];
    assert (rest + tail)[1..] == rest[1..] + tail;
    if |rest| == 1 {
      assert next == p && Parent(p) == cur && rest[1..] + tail == tail;
    } else {
      assert next == p[..|next|] && next + rest[1..] == p;
      FollowToLink(nodes, next, rest[1..], tail, links);
    }
  }

  /**
   * A link leads from the directory it is in, or from the root if its text is absolute, along its
   * components and then along what comes after the link in the path.
   */
  lemma LinkLeads(nodes: Nodes, p: Path, tail: seq<Name>)
    requires Literal(nodes, p) && Plain(p) && p != [] && p in nodes && nodes[p].Symlink?
    requires Passable(nodes, if nodes[p].target.absolute then [] else Parent(p), nodes[p].target.parts + tail)
    ensures StatPath(nodes, p + tail) == EvalSymlinks(nodes, p + tail)
         == Found(Walked(if nodes[p].target.absolute then [] else Parent(p), nodes[p].target.parts + tail))
  {
    assert [] + p == p;
    var t := nodes[p].target;
    var start := if t.absolute then [] else Parent(p);
    FollowToLink(nodes, [], p, tail, KERNEL_LINKS);
    FollowToLink(nodes, [], p, tail, EVAL_LINKS);
    FollowPassable(nodes, start, t.parts + tail, KERNEL_LINKS - 1);
    FollowPassable(nodes, start, t.parts + tail, EVAL_LINKS - 1);
  }

  /** Nothing is behind a file: looking a name up there is an error, not a miss. */
  lemma NothingBehindFiles(nodes: Nodes, p: Path, tail: seq<Name>)
    requires Literal(nodes, p) && Plain(p) && p in nodes && !nodes[p].Symlink? && !nodes[p].Dir? && tail != []
    ensures StatPath(nodes, p + tail) == EvalSymlinks(nodes, p + tail) == Broken
    ensures Place(nodes, p + tail) == Lstat(nodes, p + tail) == Broken
  {
    var above := tail[..|tail| - 1];
    assert [] + p == p && Parent(p + tail) == p + above;
    FollowOn(nodes, [], p, tail, KERNEL_LINKS);
    FollowOn(nodes, [], p, tail, EVAL_LINKS);
    FollowOn(nodes, [], p, above, KERNEL_LINKS);
  }

  /** A link to itself leads astray rather than nowhere. */
  lemma {:induction false} LoopIsBroken(nodes: Nodes, p: Path, tail: seq<Name>, links: nat)
    requires Literal(nodes, p) && Plain(p) && p != [] && p in nodes && nodes[p] == Symlink(Target(true, p))
    ensures Follow(nodes, [], p + tail, links) == Broken
    decreases links
  {
    assert [] + p == p;
    FollowToLink(nodes, [], p, tail, links);
    if links > 0 {
      LoopIsBroken(nodes, p, tail, links - 1);
    }
  }

  /** Plain components are appended, and a climb takes the last one back. */
  lemma {:induction false} WalkedPlain(cur: Path, rest: seq<Name>)
    requires Plain(rest)
    ensures Walked(cur, rest) == cur + rest
    ensures rest != [] ==> Walked(cur, rest + [".."]) == cur + Parent(rest)
    decreases |rest|
  {
    if rest == [] {
      assert cur + rest == cur;
    } else {
      var next := cur + [rest[0]];
      assert next + rest[1..] == cur + rest;
      assert (rest + [".."])[1..] == rest[1..] + [".."];
      WalkedPlain(next, rest[1..]);
      if |rest| == 1 {
        assert rest + [".."] == [rest[0], ".."] && (rest + [".."])[1..] == [".."];
        assert Walked(next, [".."]) == Walked(Parent(next), [".."][1..]);
        assert cur + Parent(rest) == cur;
      } else {
        assert next + Parent(rest[1..]) == cur + Parent(rest);
      }
    }
  }

  /** The same kind of object: following links cannot tell the two apart. */
  predicate SameKind(m: Node, n: Node) {
    m == n || (m.Dir? && n.Dir?) || (m.File? && n.File?)
  }

  /** Everything in the first tree is in the second, as the same kind of object. */
  predicate KindsIn(nodes: Nodes, more: Nodes) {
    forall q :: q in nodes ==> q in more && SameKind(nodes[q], more[q])
  }

  /** What is found in a part of a tree is found in the whole. */
  lemma {:induction false} FollowInMore(nodes: Nodes, more: Nodes, cur: Path, rest: seq<Name>, links: nat)
    requires KindsIn(nodes, more) && Follow(nodes, cur, rest, links).Found?
    ensures Follow(more, cur, rest, links) == Follow(nodes, cur, rest, links)
    ensures Follow(nodes, cur, rest, links).path in nodes
    decreases links, |rest|
  {
    if rest != [] {
      if rest[0] == ".." {
        FollowInMore(nodes, more, Parent(cur), rest[1..], links);
      } else {
        var next := cur + [rest[0]];
        assert SameKind(nodes[next], more[next]);
        if !nodes[next].Symlink? {
          FollowInMore(nodes, more, next, rest[1..], links);
        } else {
          var t := nodes[next].target;
          FollowInMore(nodes, more, if t.absolute then [] else cur, t.parts + rest[1..], links - 1);
        }
      }
    }
  }
}

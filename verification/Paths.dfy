/** Cleaned absolute paths, as the sequence of their components below the root. */
module Paths {

  type Name = string
  type Path = seq<Name>

  const ROOT: Path := []

  /** `filepath.Dir`: the root is its own parent. */
  function Parent(p: Path): Path {
    if p == [] then [] else p[..|p| - 1]
  }

  /** `filepath.Base` of a path other than the root. */
  function Base(p: Path): Name
    requires p != []
  {
    p[|p| - 1]
  }

  /** Every component is a name of its own: what `filepath.Clean` leaves of an absolute path. */
  predicate Plain(p: Path) {
    "" !in p && "." !in p && ".." !in p
  }

  /**
   * `hasCleanedFilepathPrefix` for literal patterns that also match the path itself.
   * Splitting "/" gives two empty components, so the root is a prefix of nothing but itself.
   */
  predicate HasFilepathPrefix(p: Path, prefix: Path) {
    if prefix == [] then p == [] else prefix <= p
  }

  /** The proper prefixes of a path, shortest first; the root stands in for its own parents. */
  function ParentDirs(p: Path): (ds: seq<Path>)
    ensures p != [] ==> |ds| == |p| && forall k :: 0 <= k < |p| ==> ds[k] == p[..k]
    ensures p == [] ==> ds == [[]]
  {
    if p == [] then [[]] else seq(|p|, k requires 0 <= k < |p| => p[..k])
  }

  /** `ParentDirectories`: climbs from the path to the root and prepends each directory. */
  method ParentDirectories(p: Path) returns (paths: seq<Path>)
    ensures paths == ParentDirs(p)
  {
    var dir := p;
    paths := [];
    while dir != []
      invariant |dir| + |paths| == |p|
      invariant dir <= p
      invariant forall k :: 0 <= k < |paths| ==> paths[k] == p[..|dir| + k]
      decreases |dir|
    {
      dir := Parent(dir);
      paths := [dir] + paths;
    }
    if paths == [] {
      paths := [[]];
    }
  }

  /** Two prefixes of one path are comparable. */
  lemma PrefixesCompare(a: Path, b: Path, p: Path)
    requires a <= p && b <= p
    ensures a <= b || b <= a
  {
    if |a| <= |b| {
      assert a == b[..|a|];
    } else {
      assert b == a[..|b|];
    }
  }

  lemma PrefixTransitive(a: Path, b: Path, c: Path)
    requires a <= b <= c
    ensures a <= c
  {
    assert a == b[..|a|] == c[..|b|][..|a|] == c[..|a|];
  }

  /** Nothing is listed twice. */
  ghost predicate Distinct<T>(xs: seq<T>) {
    forall i, j :: 0 <= i < j < |xs| ==> xs[i] != xs[j]
  }

  /** No path of the set is longer. */
  ghost function Depth(ps: set<Path>): (d: nat)
    ensures forall p :: p in ps ==> |p| <= d
  {
    if ps == {} then 0
    else
      var p :| p in ps;
      var d := Depth(ps - {p});
      if d < |p| then |p| else d
  }

  /** Whiteout markers: an entry whose last component starts with this prefix deletes a path. */
  const WHITEOUT_PREFIX: Name := ".wh."

  predicate MarkerName(c: Name) {
    WHITEOUT_PREFIX <= c
  }

  /** Some component of the path is a whiteout marker. */
  predicate Marked(p: Path) {
    exists k :: 0 <= k < |p| && MarkerName(p[k])
  }

  predicate IsMarker(name: Path) {
    name != [] && MarkerName(Base(name))
  }

  /**
   * The path that an entry with a marker name deletes, as `GetFSFromLayers` decodes it: the rest of the
   * name joined to the directory, so that ".wh." and ".wh.." stand for the directory itself.
   */
  function Whited(name: Path): (w: Path)
    requires IsMarker(name)
    ensures |w| <= |name| && forall k :: 0 <= k < |w| ==> w[..k] == name[..k]
    ensures Plain(name) ==> Plain(w)
  {
    var rest := Base(name)[|WHITEOUT_PREFIX|..];
    if rest == "" || rest == "." then Parent(name)
    else if rest == ".." then Parent(Parent(name))
    else Parent(name) + [rest]
  }

  /** The name that `Tar.Whiteout` writes for a deleted path. */
  function WhiteoutName(p: Path): (r: Path)
    requires p != [] && Plain(p)
    ensures IsMarker(r) && Plain(r) && Parent(r) == Parent(p) && Whited(r) == p
  {
    var r := Parent(p) + [WHITEOUT_PREFIX + Base(p)];
    assert Parent(r) == Parent(p) && Parent(p) + [Base(p)] == p && Base(p) in p;
    assert Base(r)[|WHITEOUT_PREFIX|..] == Base(p) && Base(r)[1] == 'w';
    assert forall c :: c in r ==> c in p || c == Base(r);
    r
  }
}

/** The ignore list: literal entries that hide the path itself and everything below it. */
module IgnoreLists {
  import opened Paths

  type IgnoreList = set<Path>

  /** `CheckCleanedPathAgainstIgnoreList`. */
  predicate Ignored(ign: IgnoreList, p: Path) {
    exists e :: e in ign && HasFilepathPrefix(p, e)
  }

  /** `childDirInIgnoreList`: some entry lies at or below the path. */
  predicate HoldsIgnored(ign: IgnoreList, p: Path) {
    exists e :: e in ign && HasFilepathPrefix(e, p)
  }

  /** The mount scan never lists the root, so entries are proper paths. */
  predicate Proper(ign: IgnoreList) {
    ROOT !in ign
  }

  /** An ignored path is one at or below an entry. */
  lemma IgnoredExact(ign: IgnoreList, p: Path)
    requires Proper(ign)
    ensures Ignored(ign, p) <==> exists e :: e in ign && e <= p
  {
    if e :| e in ign && e <= p {
      assert HasFilepathPrefix(p, e);
    }
    if Ignored(ign, p) {
      var e :| e in ign && HasFilepathPrefix(p, e);
      assert e in ign && e <= p;
    }
  }

  /** A path that holds an ignore entry is one at or above it; the root does not count. */
  lemma HoldsIgnoredExact(ign: IgnoreList, p: Path)
    requires Proper(ign)
    ensures HoldsIgnored(ign, p) <==> p != ROOT && exists e :: e in ign && p <= e
  {
    if e :| e in ign && p <= e {
      assert p != ROOT ==> HasFilepathPrefix(e, p);
    }
    if HoldsIgnored(ign, p) {
      var e :| e in ign && HasFilepathPrefix(e, p);
      assert e in ign && p <= e;
    }
  }

  /** Ignored paths and whiteout markers: what a layer says nothing about. */
  predicate Hidden(ign: IgnoreList, p: Path) {
    Ignored(ign, p) || Marked(p)
  }

  lemma HiddenBelow(ign: IgnoreList, p: Path, q: Path)
    requires Proper(ign) && p <= q
    ensures Ignored(ign, p) ==> Ignored(ign, q)
    ensures Hidden(ign, p) ==> Hidden(ign, q)
  {
    if Ignored(ign, p) {
      var e :| e in ign && HasFilepathPrefix(p, e);
      PrefixTransitive(e, p, q);
    }
    if Marked(p) {
      var k :| 0 <= k < |p| && MarkerName(p[k]);
      assert q[k] == p[k];
    }
  }

  /** Ignored paths and what lies below a marker: the marker files themselves are not veiled. */
  predicate Veiled(ign: IgnoreList, p: Path) {
    Ignored(ign, p) || Marked(Parent(p))
  }

  /** What is hidden is veiled or a marker. */
  lemma HiddenExact(ign: IgnoreList, p: Path)
    ensures Hidden(ign, p) <==> Veiled(ign, p) || IsMarker(p)
  {
    if p != [] {
      forall k | 0 <= k < |p| ensures MarkerName(p[k]) ==> Marked(Parent(p)) || IsMarker(p) {
        assert k < |p| - 1 ==> Parent(p)[k] == p[k];
      }
      if Marked(Parent(p)) {
        var k :| 0 <= k < |Parent(p)| && MarkerName(Parent(p)[k]);
        assert p[k] == Parent(p)[k];
      }
      if IsMarker(p) {
        assert MarkerName(p[|p| - 1]);
      }
    }
  }

  lemma VeiledBelow(ign: IgnoreList, p: Path, q: Path)
    requires Proper(ign) && p <= q
    ensures Veiled(ign, p) ==> Veiled(ign, q)
    ensures p != q && Hidden(ign, p) ==> Veiled(ign, q)
  {
    HiddenBelow(ign, p, q);
    assert p != q ==> p <= Parent(q);
    if p != q && p <= Parent(q) {
      HiddenBelow(ign, p, Parent(q));
    }
    if p != q && Marked(p) {
      var k :| 0 <= k < |p| && MarkerName(p[k]);
      assert Parent(q)[k] == p[k];
    }
    if Marked(Parent(p)) && p != q {
      var k :| 0 <= k < |Parent(p)| && MarkerName(Parent(p)[k]);
      assert Parent(q)[k] == p[k];
    }
  }
}

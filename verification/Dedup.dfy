/** `deduplicatePaths`: the shortest paths of a list, collected in a trie on the heap. */
module Dedup {
  import opened Paths
  import opened PathStrings

  class Node {
    var children: map<string, Node>
    var value: bool
    ghost const path: Path

    constructor (value: bool, ghost path: Path)
      ensures children == map[] && this.value == value && this.path == path
    {
      this.children, this.value, this.path := map[], value, path;
    }
  }

  /** The paths of the set that no other path of the set is a proper prefix of. */
  ghost predicate Minimal(paths: set<Path>, p: Path) {
    p in paths && forall q :: q in paths && q <= p ==> q == p
  }

  /** What is left of the marked paths once a path is put in: those below it are cut off. */
  ghost function Put(marked: set<Path>, p: Path): set<Path> {
    (set q | q in marked && !(p <= q)) + {p}
  }

  /** The marked paths stand for the paths put in: each is one of them, and each of them is covered. */
  ghost predicate Stands(marked: set<Path>, paths: set<Path>) {
    marked <= paths && forall p :: p in paths ==> Covered(marked, p)
  }

  ghost predicate Covered(marked: set<Path>, p: Path) {
    exists q :: q in marked && q <= p
  }

  lemma PutStands(marked: set<Path>, paths: set<Path>, p: Path)
    requires Stands(marked, paths)
    ensures Stands(Put(marked, p), paths + {p})
  {
    forall q | q in paths + {p} ensures Covered(Put(marked, p), q) {
      if p <= q {
        assert p in Put(marked, p);
      } else {
        var r :| r in marked && r <= q;
        if p <= r {
          PrefixTransitive(p, r, q);
        }
        assert r in Put(marked, p);
      }
    }
  }

  /** The shortest marked paths are the minimal ones of all that were put in. */
  lemma MinimalMarked(marked: set<Path>, paths: set<Path>, p: Path)
    requires Stands(marked, paths)
    ensures Minimal(marked, p) <==> Minimal(paths, p)
  {
    if Minimal(marked, p) {
      forall q | q in paths && q <= p ensures q == p {
        var r :| r in marked && r <= q;
        PrefixTransitive(r, q, p);
      }
    }
    if Minimal(paths, p) {
      var r :| r in marked && r <= p;
    }
  }

  class Trie {
    const root: Node
    ghost var at: map<Path, Node>

    ghost predicate Linked(p: Path)
      requires p in at
      reads this, at[p]
    {
      && (p == [] || p[..|p| - 1] in at)
      && forall k :: (k in at[p].children <==> p + [k] in at) && (k in at[p].children ==> at[p].children[k] == at[p + [k]])
    }

    ghost predicate Valid()
      reads this, at.Values
    {
      && [] in at && at[[]] == root
      && (forall p {:trigger at[p]} | p in at :: at[p].path == p)
      && (forall p {:trigger Linked(p)} | p in at :: Linked(p))
    }

    ghost function Marked(): set<Path>
      reads this, at.Values
    {
      set p | p in at && at[p].value
    }

    constructor ()
      ensures Valid() && Marked() == {} && fresh(at.Values)
    {
      root := new Node(false, []);
      new;
      at := map[[] := root];
    }

    lemma Ancestor(p: Path, n: nat)
      requires Valid() && p in at && n <= |p|
      ensures p[..n] in at
      decreases |p| - n
    {
      if n < |p| {
        Ancestor(p, n + 1);
        assert Linked(p[..n + 1]);
        assert p[..n + 1][..n] == p[..n];
      } else {
        assert p[..n] == p;
      }
    }

    /** Hangs a new node under a node of the trie, in place of what was there. */
    method Hang(n: Node, part: string, leaf: Node, ghost p: Path)
      requires Valid() && p in at && at[p] == n
      requires leaf !in at.Values && leaf.children == map[] && leaf.path == p + [part]
      modifies this, n
      ensures Valid() && p + [part] in at && at[p + [part]] == leaf && at.Values <= old(at.Values) + {leaf}
      ensures p in at && at[p] == n && n.children == old(n.children)[part := leaf]
      ensures Marked() == (set q | q in old(Marked()) && !(p + [part] <= q)) + if leaf.value then {p + [part]} else {}
    {
      hide Valid, Linked, Marked, LinkedIn, Cut;
      Snapshot();
      ghost var was, kids, flags := at, Kids(), Flags();
      n.children := n.children[part := leaf];
      at := Cut(at, p + [part], leaf);
      HungLinks(was, kids, part, p, leaf);
      HungMarks(flags, was, p + [part]);
    }

    lemma Snapshot()
      requires Valid()
      ensures [] in at && at[[]] == root
      ensures forall q {:trigger at[q]} | q in at :: at[q].path == q
      ensures forall q {:trigger LinkedIn(at, Kids(), q)} | q in at :: LinkedIn(at, Kids(), q)
    {
      forall q | q in at ensures LinkedIn(at, Kids(), q) {
        assert Linked(q);
      }
    }

    /** The nodes when a path is replaced together with all that is below it. */
    ghost static function Cut(at: map<Path, Node>, p: Path, leaf: Node): (cut: map<Path, Node>)
      ensures p in cut && cut[p] == leaf && cut.Values <= at.Values + {leaf}
      ensures forall q :: q in cut && q != p <==> q in at && !(p <= q)
      ensures forall q :: q in cut && q != p ==> cut[q] == at[q]
    {
      (map q | q in at && !(p <= q) :: at[q])[p := leaf]
    }

    /** The children of every node, as a value. */
    ghost function Kids(): map<Path, map<string, Node>>
      reads this, at.Values
    {
      map p | p in at :: at[p].children
    }

    /** The marks of every node, as a value. */
    ghost function Flags(): (flags: map<Path, bool>)
      reads this, at.Values
      ensures Marked() == set p | p in flags && flags[p]
    {
      map p | p in at :: at[p].value
    }

    ghost static predicate LinkedIn(at: map<Path, Node>, kids: map<Path, map<string, Node>>, p: Path)
      requires p in at && p in kids
    {
      && (p == [] || p[..|p| - 1] in at)
      && forall k :: (k in kids[p] <==> p + [k] in at) && (k in kids[p] ==> kids[p][k] == at[p + [k]])
    }

    lemma HungLinks(was: map<Path, Node>, kids: map<Path, map<string, Node>>, part: string, p: Path, leaf: Node)
      requires p in was && [] in was && was[[]] == root && kids.Keys == was.Keys && leaf.children == map[] && leaf.path == p + [part]
      requires forall q {:trigger was[q]} | q in was :: was[q].path == q
      requires forall q {:trigger LinkedIn(was, kids, q)} | q in was :: LinkedIn(was, kids, q)
      requires at == Cut(was, p + [part], leaf)
      requires forall q | q in at && q != p + [part] :: at[q].children == if q == p then kids[q][part := leaf] else kids[q]
      ensures Valid()
    {
      var leafPath := p + [part];
      assert !(leafPath <= p) && !(leafPath <= []);
      forall q | q in at ensures Linked(q) {
        if q != leafPath {
          assert LinkedIn(was, kids, q);
          ParentAbove(leafPath, q);
        }
        BelowLeaf(leafPath, q, p, part);
      }
    }

    lemma HungMarks(flags: map<Path, bool>, was: map<Path, Node>, leafPath: Path)
      requires flags.Keys == was.Keys && leafPath in at
      requires forall q :: q in at && q != leafPath <==> q in was && !(leafPath <= q)
      requires forall q | q in at && q != leafPath :: at[q].value == flags[q]
      ensures Marked() == (set q | q in flags && flags[q] && !(leafPath <= q)) + if at[leafPath].value then {leafPath} else {}
    {
      var kept := set q | q in flags && flags[q] && !(leafPath <= q);
      forall q ensures q in Marked() <==> q in kept || (at[leafPath].value && q == leafPath) {
      }
    }

    static lemma ParentAbove(p: Path, q: Path)
      ensures q != [] && p <= q[..|q| - 1] ==> p <= q
    {
      if q != [] && p <= q[..|q| - 1] {
        PrefixTransitive(p, q[..|q| - 1], q);
      }
    }

    static lemma BelowLeaf(leafPath: Path, q: Path, p: Path, part: string)
      requires leafPath == p + [part]
      ensures forall k :: leafPath <= q + [k] <==> leafPath <= q || (q == p && k == part)
    {
      forall k | leafPath <= q + [k] && !(leafPath <= q) ensures q == p && k == part {
        assert |leafPath| == |q| + 1;
        assert leafPath[..|q|] == q && leafPath[|q|] == k;
      }
    }

    /** Marks one path: walks down to its last component, and puts a marked leaf there. */
    method Insert(parts: Path)
      requires Valid() && parts != []
      modifies this, at.Values
      ensures Valid() && fresh(at.Values - old(at.Values)) && Marked() == Put(old(Marked()), parts)
    {
      var current := root;
      var last := |parts| - 1;
      assert parts[..0] == [];
      for i := 0 to last
        invariant Valid() && parts[..i] in at && at[parts[..i]] == current
        invariant fresh(at.Values - old(at.Values)) && Marked() == old(Marked())
      {
        var part := parts[i];
        assert parts[..i + 1] == parts[..i] + [part];
        assert Linked(parts[..i]);
        if part !in current.children {
          NothingBelow(parts[..i + 1]);
          var n := new Node(false, parts[..i + 1]);
          Hang(current, part, n, parts[..i]);
        }
        current := current.children[part];
      }
      var leaf := new Node(true, parts);
      assert parts == parts[..last] + [parts[last]];
      Hang(current, parts[last], leaf, parts[..last]);
    }

    lemma PrefixPresent(q: Path, p: Path)
      requires Valid() && q in at && p <= q
      ensures p in at
    {
      Ancestor(q, |p|);
      assert q[..|p|] == p;
    }

    lemma NothingBelow(p: Path)
      requires Valid() && p !in at
      ensures forall q :: q in at ==> !(p <= q)
    {
      forall q | q in at ensures !(p <= q) {
        if p <= q {
          PrefixPresent(q, p);
        }
      }
    }

    /** The marked paths at or below a node that no other one above them hides. */
    ghost predicate Shows(p: Path, q: Path)
      reads this, at.Values
    {
      q in Marked() && p <= q && forall r :: r in Marked() && p <= r <= q ==> r == q
    }

    /** Collects the paths below a node; the children of a map come in any order. */
    method Traverse(n: Node, path: string, deduped: seq<string>, ghost p: Path, ghost depth: nat)
      returns (out: seq<string>, ghost shown: seq<Path>)
      requires Valid() && p in at && at[p] == n && path == Rooted(p) && |p| <= depth
      requires forall q :: q in at ==> |q| <= depth
      ensures out == deduped + Trimmed(shown)
      ensures forall q :: q in shown <==> Shows(p, q)
      ensures Distinct(shown)
      decreases depth - |p|, 1
    {
      hide Shows, Rooted, Marked, ShowsUnder, Trimmed, Valid, TrimSlash;
      out, shown := deduped, [];
      if n.value {
        out := out + [TrimSlash(path)];
        shown := [p];
        TrimmedOne(p);
        ShowsMarked(p);
        return;
      }
      out, shown := TraverseChildren(n, path, deduped, p, depth);
      forall q ensures Shows(p, q) <==> ShowsUnder(p, n.children.Keys, q) {
        ShowsBelow(p, q);
      }
    }

    /** The loop over the children. */
    method TraverseChildren(n: Node, path: string, deduped: seq<string>, ghost p: Path, ghost depth: nat)
      returns (out: seq<string>, ghost shown: seq<Path>)
      requires Valid() && p in at && at[p] == n && path == Rooted(p) && |p| <= depth
      requires forall q :: q in at ==> |q| <= depth
      ensures out == deduped + Trimmed(shown) && Collected(p, n.children.Keys, shown)
      decreases depth - |p|, 0
    {
      hide Shows, Rooted, Marked, Collected, Trimmed, Valid, TrimSlash;
      Children(p);
      out, shown := deduped, [];
      var keys := n.children.Keys;
      NothingShown(p);
      assert n.children.Keys - keys == {};
      while keys != {}
        invariant keys <= n.children.Keys
        invariant out == deduped + Trimmed(shown)
        invariant Collected(p, n.children.Keys - keys, shown)
        decreases |keys|
      {
        var k :| k in keys;
        ghost var before, past := shown, n.children.Keys - keys;
        keys := keys - {k};
        RootedStep(p, k);
        ghost var more;
        out, more := Traverse(n.children[k], path + "/" + k, out, p + [k], depth);
        shown := before + more;
        assert n.children.Keys - keys == past + {k};
        Gathered(p, past, k, before, more);
      }
      assert n.children.Keys - keys == n.children.Keys;
    }

    lemma Children(p: Path)
      requires Valid() && p in at
      ensures forall k :: k in at[p].children ==> p + [k] in at && at[p].children[k] == at[p + [k]]
    {
      assert Linked(p);
    }

    /** Something shows below one of the children. */
    ghost predicate ShowsUnder(p: Path, ks: set<string>, q: Path)
      reads this, at.Values
    {
      exists k :: k in ks && Shows(p + [k], q)
    }

    /** What shows below the children, each once. */
    ghost predicate Collected(p: Path, ks: set<string>, shown: seq<Path>)
      reads this, at.Values
    {
      Distinct(shown) && forall q :: q in shown <==> ShowsUnder(p, ks, q)
    }

    lemma NothingShown(p: Path)
      ensures Trimmed([]) == [] && Collected(p, {}, [])
    {
    }

    lemma ShowsMarked(p: Path)
      requires p in at && at[p].value
      ensures forall q :: Shows(p, q) <==> q == p
    {
      assert p in Marked();
    }

    lemma OneMoreChild(p: Path, ks: set<string>, k: string)
      requires k !in ks
      ensures forall q :: ShowsUnder(p, ks + {k}, q) <==> ShowsUnder(p, ks, q) || Shows(p + [k], q)
      ensures forall q :: !(ShowsUnder(p, ks, q) && Shows(p + [k], q))
    {
      forall q | ShowsUnder(p, ks, q) ensures ShowsUnder(p, ks + {k}, q) && !Shows(p + [k], q) {
        var j :| j in ks && Shows(p + [j], q);
        assert q[|p|] == j && j in ks + {k};
      }
    }

    lemma Gathered(p: Path, ks: set<string>, k: string, before: seq<Path>, more: seq<Path>)
      requires k !in ks && Collected(p, ks, before) && Distinct(more) && forall q :: q in more <==> Shows(p + [k], q)
      ensures Collected(p, ks + {k}, before + more)
      ensures Trimmed(before + more) == Trimmed(before) + Trimmed(more)
    {
      hide ShowsUnder, Shows, Trimmed;
      OneMoreChild(p, ks, k);
      DistinctAppend(before, more);
      TrimmedSplit(before, more);
    }

    lemma ShowsAtRoot(p: Path)
      ensures Shows([], p) <==> Minimal(Marked(), p)
    {
    }

    /** Above a node that is not marked itself, what shows is what shows at its children. */
    lemma ShowsBelow(p: Path, q: Path)
      requires Valid() && p in at && !at[p].value
      ensures Shows(p, q) <==> ShowsUnder(p, at[p].children.Keys, q)
    {
      assert p !in Marked();
      if Shows(p, q) {
        assert q != p;
        var k := q[|p|];
        assert q[..|p|] == p && q[..|p| + 1] == p + [k];
        Ancestor(q, |p| + 1);
        assert Linked(p);
        forall r | r in Marked() && p + [k] <= r <= q ensures r == q {
          PrefixTransitive(p, p + [k], r);
        }
        assert Shows(p + [k], q);
      }
      forall k | k in at[p].children.Keys && Shows(p + [k], q) ensures Shows(p, q) {
        PrefixTransitive(p, p + [k], q);
        forall r | r in Marked() && p <= r <= q ensures r == q {
          assert r != p;
          assert r[|p|] == q[|p|] == k;
          assert p + [k] <= r;
        }
      }
    }
  }

  lemma DistinctAppend(a: seq<Path>, b: seq<Path>)
    requires Distinct(a) && Distinct(b)
    requires forall q :: q in a ==> q !in b
    ensures Distinct(a + b)
  {
    forall i, j | 0 <= i < j < |a + b| ensures (a + b)[i] != (a + b)[j] {
      if i < |a| <= j {
        assert a[i] in a && b[j - |a|] in b;
      }
    }
  }

  // ---------------------------------------------------------------------------------------------
  // Strings
  // ---------------------------------------------------------------------------------------------

  function Trimmed(ps: seq<Path>): seq<string> {
    seq(|ps|, i requires 0 <= i < |ps| => TrimSlash(Rooted(ps[i])))
  }

  lemma TrimmedOne(p: Path)
    ensures Trimmed([p]) == [TrimSlash(Rooted(p))]
  {
  }

  lemma TrimmedSplit(a: seq<Path>, b: seq<Path>)
    ensures Trimmed(a + b) == Trimmed(a) + Trimmed(b)
  {
  }

  ghost function SplitAll(paths: seq<string>): set<Path> {
    set f | f in paths :: Split(f)
  }

  /** One path is, component by component, the beginning of the other. */
  predicate Below(p: string, q: string) {
    Split(p) <= Split(q)
  }

  /** No other path of the input is at or above the path. */
  ghost predicate Topmost(paths: seq<string>, d: string) {
    d in paths && forall f :: f in paths && Below(f, d) ==> f == d
  }

  /** Exactly the topmost paths of the input, each once. */
  ghost predicate Shortest(paths: seq<string>, deduped: seq<string>) {
    && (forall d :: d in deduped <==> Topmost(paths, d))
    && Distinct(deduped)
  }

  /** The tree that marks all paths. */
  method MarkAll(paths: seq<string>) returns (trie: Trie)
    ensures fresh(trie) && fresh(trie.at.Values) && trie.Valid() && Stands(trie.Marked(), SplitAll(paths))
  {
    hide Put, Split, Stands;
    trie := new Trie();
    NothingStands();
    for i := 0 to |paths|
      invariant trie.Valid() && fresh(trie) && fresh(trie.at.Values)
      invariant Stands(trie.Marked(), SplitAll(paths[..i]))
    {
      SplitAllAppend(paths[..i], paths[i]);
      assert paths[..i + 1] == paths[..i] + [paths[i]];
      PutStands(trie.Marked(), SplitAll(paths[..i]), Split(paths[i]));
      trie.Insert(Split(paths[i]));
    }
    assert paths[..|paths|] == paths;
  }

  lemma NothingStands()
    ensures Stands({}, SplitAll([]))
  {
  }

  method DeduplicatePaths(paths: seq<string>) returns (deduped: seq<string>)
    ensures Shortest(paths, deduped)
    ensures forall f :: f in paths ==> exists d :: d in deduped && Below(d, f)
  {
    hide Split, Stands, SplitAll, Shortest, Below, Minimal;
    var trie := MarkAll(paths);
    ghost var depth := Depth(trie.at.Keys);
    ghost var shown;
    NoParts();
    deduped, shown := trie.Traverse(trie.root, "", [], [], depth);
    forall p ensures p in shown <==> Minimal(SplitAll(paths), p) {
      trie.ShowsAtRoot(p);
      MinimalMarked(trie.Marked(), SplitAll(paths), p);
    }
    ShownIsShortest(paths, shown);
    assert deduped == Trimmed(shown);
  }

  lemma SplitAllAppend(paths: seq<string>, f: string)
    ensures SplitAll(paths + [f]) == SplitAll(paths) + {Split(f)}
  {
    forall p | p in SplitAll(paths) ensures p in SplitAll(paths + [f]) {
      var g :| g in paths && Split(g) == p;
      assert g in paths + [f];
    }
    assert f in paths + [f];
  }

  lemma InputOf(paths: seq<string>, p: Path) returns (f: string)
    requires p in SplitAll(paths)
    ensures f in paths && Split(f) == p
  {
    f :| f in paths && Split(f) == p;
  }

  /** As strings, the paths shown are paths of the input, and the ones that split into what is shown. */
  lemma ShownAreInputs(paths: seq<string>, shown: seq<Path>)
    requires forall i :: 0 <= i < |shown| ==> shown[i] in SplitAll(paths)
    ensures |Trimmed(shown)| == |shown|
    ensures forall i :: 0 <= i < |shown| ==> Trimmed(shown)[i] in paths && Split(Trimmed(shown)[i]) == shown[i]
  {
    hide Split, Rooted;
    forall i | 0 <= i < |shown| ensures Trimmed(shown)[i] in paths && Split(Trimmed(shown)[i]) == shown[i] {
      var f := InputOf(paths, shown[i]);
      SplitRooted(f);
    }
  }

  lemma TopmostIsMinimal(paths: seq<string>, d: string)
    ensures Topmost(paths, d) <==> d in paths && Minimal(SplitAll(paths), Split(d))
  {
    hide Split;
    if d in paths && Minimal(SplitAll(paths), Split(d)) {
      forall f | f in paths && Below(f, d) ensures f == d {
        assert Split(f) in SplitAll(paths);
        SplitInjective(f, d);
      }
    }
    if Topmost(paths, d) {
      forall q | q in SplitAll(paths) && q <= Split(d) ensures q == Split(d) {
        var f :| f in paths && Split(f) == q;
        assert Below(f, d);
      }
    }
  }

  lemma ShownIsShortest(paths: seq<string>, shown: seq<Path>)
    requires forall p :: p in shown <==> Minimal(SplitAll(paths), p)
    requires Distinct(shown)
    ensures Shortest(paths, Trimmed(shown))
    ensures forall f :: f in paths ==> exists d :: d in Trimmed(shown) && Below(d, f)
  {
    forall i | 0 <= i < |shown| ensures Minimal(SplitAll(paths), shown[i]) {
      assert shown[i] in shown;
    }
    ShownAreInputs(paths, shown);
    hide Split, Trimmed, Topmost, SplitAll, Minimal, Below, Distinct;
    var out := Trimmed(shown);
    DistinctStrings(shown, out);
    forall d ensures d in out <==> Topmost(paths, d) {
      TopmostIsMinimal(paths, d);
      if Topmost(paths, d) {
        var i :| 0 <= i < |shown| && shown[i] == Split(d);
        SplitInjective(d, out[i]);
      }
    }
    forall f | f in paths ensures exists d :: d in out && Below(d, f) {
      ShownCovers(paths, shown, out, f);
    }
  }

  lemma DistinctStrings(shown: seq<Path>, out: seq<string>)
    requires Distinct(shown) && |out| == |shown| && forall i :: 0 <= i < |out| ==> Split(out[i]) == shown[i]
    ensures Distinct(out)
  {
    hide Split;
  }

  lemma ShownCovers(paths: seq<string>, shown: seq<Path>, out: seq<string>, f: string)
    requires forall p :: p in shown <==> Minimal(SplitAll(paths), p)
    requires |out| == |shown| && forall i :: 0 <= i < |out| ==> Split(out[i]) == shown[i]
    requires f in paths
    ensures exists d :: d in out && Below(d, f)
  {
    hide Split, SplitAll, Minimal, Below;
    var m := TopOf(paths, f);
    var i :| 0 <= i < |shown| && shown[i] == m;
    BelowSplit(out[i], f);
    assert out[i] in out;
  }

  lemma BelowSplit(d: string, f: string)
    requires Split(d) <= Split(f)
    ensures Below(d, f)
  {
  }

  lemma TopOf(paths: seq<string>, f: string) returns (m: Path)
    requires f in paths
    ensures Minimal(SplitAll(paths), m) && m <= Split(f)
  {
    hide Split;
    m := MinimalBelow(SplitAll(paths), Split(f));
  }

  /** Every path has a minimal one at or above it. */
  lemma {:induction false} MinimalBelow(paths: set<Path>, p: Path) returns (m: Path)
    requires p in paths
    ensures Minimal(paths, m) && m <= p
    decreases |p|
  {
    if q :| q in paths && q <= p && q != p {
      m := MinimalBelow(paths, q);
      PrefixTransitive(m, q, p);
    } else {
      m := p;
    }
  }
}

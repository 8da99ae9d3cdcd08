/** Writing a snapshot layer: parents first, one entry a path, hard links to earlier entries. */
module TarWriter {
  import opened Paths
  import opened Disks
  import opened Extraction
  import opened Changesets

  lemma LstatPresent(nodes: Nodes, p: Path)
    requires Closed(nodes) && Plain(p) && p in nodes
    ensures Lstat(nodes, p) == Found(p)
  {
    ClosedLiteral(nodes, p);
    PlaceLiteral(nodes, p);
  }

  lemma LstatAbsent(nodes: Nodes, p: Path)
    requires Closed(nodes) && Plain(p) && p !in nodes && Literal(nodes, p)
    ensures Lstat(nodes, p) == Missing
  {
    PlaceLiteral(nodes, p);
  }

  predicate IsSocket(n: Node) {
    n.Special? && n.socket
  }

  /** The entry shows the file of the path, or links it to another name of it. */
  ghost predicate Tells(d: Disk, e: TarEntry, p: Path) {
    && e.name == p && p in d.nodes && p in d.ino
    && if e.body.HardlinkBody? then e.body.original in d.ino && d.ino[e.body.original] == d.ino[p]
       else e.body == BodyOf(d.nodes[p])
  }

  ghost predicate Told(d: Disk, layer: Layer, p: Path) {
    exists j :: 0 <= j < |layer| && Tells(d, layer[j], p)
  }

  /** The link table and the set of written paths match the entries so far. */
  ghost predicate Books(d: Disk, layer: Layer, links: map<nat, Path>, added: set<Path>) {
    && (forall p :: p in added ==> p in d.nodes)
    && (forall p :: p in added && !IsSocket(d.nodes[p]) ==> Told(d, layer, p))
    && (forall p :: p in added && d.nodes[p].Dir? ==> Described(d, layer, |layer|, p))
    && (forall p :: Written(layer, |layer|, p) ==> p in added)
    && (forall n :: n in links ==> links[n] in added && Original(d, layer, n, links[n]))
    && (forall p :: Written(layer, |layer|, p) && p in d.nlink && p in d.ino && d.nlink[p] > 1 ==> d.ino[p] in links)
  }

  /** The path carries the content of its inode in the layer. */
  ghost predicate Original(d: Disk, layer: Layer, n: nat, p: Path) {
    p in d.ino && d.ino[p] == n && Described(d, layer, |layer|, p)
  }

  lemma WrittenExtends(layer: Layer, e: TarEntry, i: nat, p: Path)
    requires i <= |layer|
    ensures Written(layer + [e], i, p) <==> Written(layer, i, p)
  {
    if Written(layer + [e], i, p) {
      var j :| 0 <= j < i && (layer + [e])[j].name == p;
      assert layer[j].name == p;
    }
    if Written(layer, i, p) {
      var j :| 0 <= j < i && layer[j].name == p;
      assert (layer + [e])[j].name == p;
    }
  }

  lemma DescribedExtends(d: Disk, layer: Layer, e: TarEntry, i: nat, p: Path)
    requires i <= |layer|
    ensures Described(d, layer + [e], i, p) <==> Described(d, layer, i, p)
    ensures Described(d, layer, i, p) ==> Described(d, layer + [e], |layer| + 1, p)
  {
    if Described(d, layer + [e], i, p) {
      var j :| 0 <= j < i && (layer + [e])[j] == TarEntry(p, BodyOf(d.nodes[p]));
      assert layer[j] == (layer + [e])[j];
    }
    if Described(d, layer, i, p) {
      var j :| 0 <= j < i && layer[j] == TarEntry(p, BodyOf(d.nodes[p]));
      assert (layer + [e])[j] == layer[j];
    }
  }

  lemma ToldGrows(d: Disk, layer: Layer, e: TarEntry, p: Path)
    ensures Told(d, layer, p) || Tells(d, e, p) ==> Told(d, layer + [e], p)
  {
    hide Tells;
    if Told(d, layer, p) {
      var j :| 0 <= j < |layer| && Tells(d, layer[j], p);
      assert (layer + [e])[j] == layer[j];
    }
    if Tells(d, e, p) {
      assert (layer + [e])[|layer|] == e;
    }
  }

  lemma WrittenGrows(layer: Layer, e: TarEntry, p: Path)
    ensures Written(layer + [e], |layer| + 1, p) <==> Written(layer, |layer|, p) || (p == e.name && !IsMarker(p))
  {
    WrittenExtends(layer, e, |layer|, p);
    var all := layer + [e];
    if Written(all, |layer| + 1, p) && p != e.name {
      var j :| 0 <= j < |layer| + 1 && all[j].name == p;
      assert j < |layer|;
    }
    if p == e.name && !IsMarker(p) {
      assert all[|layer|].name == p;
    }
    if Written(all, |layer|, p) {
      var j :| 0 <= j < |layer| && all[j].name == p;
      assert j < |layer| + 1;
    }
  }

  lemma AncestorsExtend(d: Disk, layer: Layer, e: TarEntry, i: nat, p: Path)
    requires i <= |layer| && AncestorsWritten(d, layer, i, p)
    ensures AncestorsWritten(d, layer + [e], i, p)
  {
    hide Described;
    forall k | 0 <= k < |p| ensures IsDir(d.nodes, p[..k]) && Described(d, layer + [e], i, p[..k]) {
      DescribedExtends(d, layer, e, i, p[..k]);
    }
  }

  lemma EntryStays(d: Disk, layer: Layer, e: TarEntry, i: nat)
    requires i < |layer| && EntryOk(d, layer, i)
    ensures EntryOk(d, layer + [e], i)
  {
    hide Described, Written, AncestorsWritten;
    var all := layer + [e];
    assert all[i] == layer[i];
    AncestorsExtend(d, layer, e, i, layer[i].name);
    WrittenExtends(layer, e, i, layer[i].name);
    if Shows(d, layer, i) {
      if layer[i].body.HardlinkBody? {
        DescribedExtends(d, layer, e, i, layer[i].body.original);
      } else {
        forall j | 0 <= j < i && !IsMarker(all[j].name) && all[j].name in d.ino
          ensures d.ino[all[j].name] != d.ino[all[i].name]
        {
          assert all[j] == layer[j];
        }
      }
    }
  }

  /** A layer stays faithful when its last entry is. */
  lemma FaithfulGrows(d: Disk, layer: Layer, e: TarEntry)
    requires Faithful(d, layer) && EntryOk(d, layer + [e], |layer|)
    ensures Faithful(d, layer + [e])
  {
    hide EntryOk;
    forall i | 0 <= i < |layer| + 1 ensures EntryOk(d, layer + [e], i) {
      if i < |layer| {
        EntryStays(d, layer, e, i);
      }
    }
  }

  /** The header `AddFileToTar` writes for a path whose inode is that of `q`. */
  function EntryFor(d: Disk, links: map<nat, Path>, p: Path, q: Path): TarEntry
    requires q in d.nodes && q in d.ino && q in d.nlink
  {
    if d.nlink[q] > 1 && d.ino[q] in links && links[d.ino[q]] != p
    then TarEntry(p, HardlinkBody(links[d.ino[q]]))
    else TarEntry(p, BodyOf(d.nodes[q]))
  }

  function LinksAfter(d: Disk, links: map<nat, Path>, p: Path, q: Path): map<nat, Path>
    requires q in d.nodes && q in d.ino && q in d.nlink
  {
    if d.nlink[q] > 1 && (d.ino[q] !in links || links[d.ino[q]] == p) then links[d.ino[q] := p] else links
  }

  /** Ready to be written: on the disk, not yet in the layer, with its parents there. */
  ghost predicate CanAdd(d: Disk, layer: Layer, added: set<Path>, p: Path) {
    p in d.nodes && p !in added && AncestorsWritten(d, layer, |layer|, p)
  }

  lemma HardEntryOk(d: Disk, layer: Layer, links: map<nat, Path>, added: set<Path>, p: Path)
    requires Sane(d) && Books(d, layer, links, added) && CanAdd(d, layer, added, p)
    requires d.ino[p] in links
    ensures var o := links[d.ino[p]];
      o != p && EntryOk(d, layer + [TarEntry(p, HardlinkBody(o))], |layer|)
  {
    hide Described, Written, AncestorsWritten, Told;
    var o := links[d.ino[p]];
    var e := TarEntry(p, HardlinkBody(o));
    AncestorsExtend(d, layer, e, |layer|, p);
    DescribedExtends(d, layer, e, |layer|, o);
    WrittenExtends(layer, e, |layer|, p);
    assert Original(d, layer, d.ino[p], o);
    assert (layer + [e])[|layer|] == e;
  }

  lemma ContentEntryOk(d: Disk, layer: Layer, links: map<nat, Path>, added: set<Path>, p: Path)
    requires Sane(d) && Books(d, layer, links, added) && CanAdd(d, layer, added, p)
    requires d.nlink[p] <= 1 || d.ino[p] !in links
    ensures EntryOk(d, layer + [TarEntry(p, BodyOf(d.nodes[p]))], |layer|)
  {
    assert p in d.ino && p in d.nlink;
    var e := TarEntry(p, BodyOf(d.nodes[p]));
    var all := layer + [e];
    assert !Written(layer, |layer|, p);
    hide Sane, Books, Written, Described, AncestorsWritten;
    AncestorsExtend(d, layer, e, |layer|, p);
    WrittenExtends(layer, e, |layer|, p);
    assert all[|layer|] == e;
    forall j | 0 <= j < |layer| && !IsMarker(all[j].name) && all[j].name in d.ino
      ensures d.ino[all[j].name] != d.ino[p]
    {
      assert all[j] == layer[j];
      OtherInode(d, layer, links, added, p, j);
    }
  }

  lemma OtherInode(d: Disk, layer: Layer, links: map<nat, Path>, added: set<Path>, p: Path, j: nat)
    requires Sane(d) && Books(d, layer, links, added) && p in d.nodes && p !in added
    requires d.nlink[p] <= 1 || d.ino[p] !in links
    requires j < |layer| && !IsMarker(layer[j].name) && layer[j].name in d.ino
    ensures d.ino[layer[j].name] != d.ino[p]
  {
    assert Written(layer, |layer|, layer[j].name);
    assert layer[j].name in added;
  }

  /** Writing one more path keeps the layer faithful. */
  lemma AddKeepsFaithful(d: Disk, layer: Layer, links: map<nat, Path>, added: set<Path>, p: Path)
    requires Sane(d) && Faithful(d, layer) && Books(d, layer, links, added) && CanAdd(d, layer, added, p)
    ensures Faithful(d, layer + [EntryFor(d, links, p, p)])
  {
    if d.nlink[p] > 1 && d.ino[p] in links {
      HardEntryOk(d, layer, links, added, p);
    } else {
      ContentEntryOk(d, layer, links, added, p);
    }
    FaithfulGrows(d, layer, EntryFor(d, links, p, p));
  }

  lemma OriginalStays(d: Disk, layer: Layer, e: TarEntry, n: nat, p: Path)
    requires Original(d, layer, n, p)
    ensures Original(d, layer + [e], n, p)
  {
    DescribedExtends(d, layer, e, |layer|, p);
  }

  /** The entry for a path that can be added tells it, and describes it if it is a directory. */
  lemma EntryTells(d: Disk, layer: Layer, links: map<nat, Path>, added: set<Path>, p: Path)
    requires Sane(d) && Books(d, layer, links, added) && CanAdd(d, layer, added, p)
    ensures Tells(d, EntryFor(d, links, p, p), p)
    ensures d.nodes[p].Dir? || d.nlink[p] <= 1 || d.ino[p] !in links ==> EntryFor(d, links, p, p) == TarEntry(p, BodyOf(d.nodes[p]))
    ensures d.ino[p] in links ==> links[d.ino[p]] != p
  {
    hide Sane, Books, AncestorsWritten;
    SaneKeys(d, p);
    if d.ino[p] in links {
      KnownOriginal(d, layer, links, added, d.ino[p]);
      OneInode(d, links[d.ino[p]], p);
    }
  }

  lemma SaneKeys(d: Disk, p: Path)
    requires Sane(d) && p in d.nodes
    ensures p in d.ino && p in d.nlink
  {
  }

  lemma KnownOriginal(d: Disk, layer: Layer, links: map<nat, Path>, added: set<Path>, n: nat)
    requires Books(d, layer, links, added) && n in links
    ensures links[n] in added && links[n] in d.nodes && links[n] in d.ino && d.ino[links[n]] == n
  {
    hide Told, Described, Written;
    assert Original(d, layer, n, links[n]);
  }

  lemma OneInode(d: Disk, p: Path, q: Path)
    requires Sane(d) && p in d.nodes && q in d.nodes && d.ino[p] == d.ino[q]
    ensures p != q ==> !d.nodes[q].Dir?
  {
  }

  /** Whatever is appended, what has been written stays so. */
  lemma BooksStay(d: Disk, layer: Layer, links: map<nat, Path>, added: set<Path>, e: TarEntry)
    requires Books(d, layer, links, added)
    ensures forall q :: q in added && !IsSocket(d.nodes[q]) ==> Told(d, layer + [e], q)
    ensures forall q :: q in added && d.nodes[q].Dir? ==> Described(d, layer + [e], |layer| + 1, q)
    ensures forall n :: n in links ==> Original(d, layer + [e], n, links[n])
  {
    hide Told, Described, Original, Written;
    forall q | q in added && !IsSocket(d.nodes[q]) ensures Told(d, layer + [e], q) {
      ToldGrows(d, layer, e, q);
    }
    forall q | q in added && d.nodes[q].Dir? ensures Described(d, layer + [e], |layer| + 1, q) {
      DescribedExtends(d, layer, e, |layer|, q);
    }
    forall n | n in links ensures Original(d, layer + [e], n, links[n]) {
      OriginalStays(d, layer, e, n, links[n]);
    }
  }

  lemma AddKeepsBooks(d: Disk, layer: Layer, links: map<nat, Path>, added: set<Path>, p: Path)
    requires Sane(d) && Books(d, layer, links, added) && CanAdd(d, layer, added, p)
    ensures Books(d, layer + [EntryFor(d, links, p, p)], LinksAfter(d, links, p, p), added + {p})
  {
    hide Sane, Told, Described, Written, Tells, Faithful, AncestorsWritten, Original, EntryFor;
    SaneKeys(d, p);
    var e := EntryFor(d, links, p, p);
    var all := layer + [e];
    EntryTells(d, layer, links, added, p);
    EntryName(d, links, p);
    BooksStay(d, layer, links, added, e);
    ToldGrows(d, layer, e, p);
    EntryDescribes(d, layer, e, p);
    forall q ensures Written(all, |all|, q) <==> Written(layer, |layer|, q) || (q == p && !IsMarker(p)) {
      WrittenGrows(layer, e, q);
    }
    NewOriginal(d, layer, links, added, p);
  }

  lemma EntryName(d: Disk, links: map<nat, Path>, p: Path)
    requires p in d.nodes && p in d.ino && p in d.nlink
    ensures EntryFor(d, links, p, p).name == p
    ensures EntryFor(d, links, p, p).body.HardlinkBody? || EntryFor(d, links, p, p) == TarEntry(p, BodyOf(d.nodes[p]))
  {
  }

  /** Whatever the link table has after one more path carries its inode's content. */
  lemma NewOriginal(d: Disk, layer: Layer, links: map<nat, Path>, added: set<Path>, p: Path)
    requires Sane(d) && Books(d, layer, links, added) && CanAdd(d, layer, added, p)
    ensures var after := LinksAfter(d, links, p, p);
      forall n :: n in after ==> after[n] in added + {p} && Original(d, layer + [EntryFor(d, links, p, p)], n, after[n])
  {
    hide Sane, Books, Told, Described, Written, Tells, AncestorsWritten, EntryFor;
    SaneKeys(d, p);
    var e, after := EntryFor(d, links, p, p), LinksAfter(d, links, p, p);
    BooksStay(d, layer, links, added, e);
    forall n | n in after ensures after[n] in added + {p} && Original(d, layer + [e], n, after[n]) {
      if n in links && after[n] == links[n] {
        KnownOriginal(d, layer, links, added, n);
      } else {
        assert n == d.ino[p] && after[n] == p;
        FirstNameDescribed(d, links, p);
        EntryDescribes(d, layer, e, p);
      }
    }
  }

  /** The name that is recorded for an inode comes with the content. */
  lemma FirstNameDescribed(d: Disk, links: map<nat, Path>, p: Path)
    requires p in d.nodes && p in d.ino && p in d.nlink && d.nlink[p] > 1 && (d.ino[p] !in links || links[d.ino[p]] == p)
    ensures EntryFor(d, links, p, p) == TarEntry(p, BodyOf(d.nodes[p]))
  {
  }

  lemma EntryDescribes(d: Disk, layer: Layer, e: TarEntry, p: Path)
    requires p in d.nodes && (e.body.HardlinkBody? || e == TarEntry(p, BodyOf(d.nodes[p])))
    ensures !e.body.HardlinkBody? ==> Described(d, layer + [e], |layer| + 1, p)
  {
    assert (layer + [e])[|layer|] == e;
  }

  lemma MarkerKeepsBooks(d: Disk, layer: Layer, links: map<nat, Path>, added: set<Path>, e: TarEntry)
    requires Books(d, layer, links, added) && IsMarker(e.name)
    ensures Books(d, layer + [e], links, added)
  {
    hide Told, Described, Written, Original;
    BooksStay(d, layer, links, added, e);
    forall q ensures Written(layer + [e], |layer| + 1, q) <==> Written(layer, |layer|, q) {
      WrittenGrows(layer, e, q);
    }
  }

  /** `Tar.Whiteout` writes an empty regular file under the marker name. */
  function WhiteoutEntry(w: Path): TarEntry
    requires w != [] && Plain(w)
  {
    TarEntry(WhiteoutName(w), RegBody(0, ""))
  }

  lemma WhiteoutKeepsFaithful(d: Disk, layer: Layer, w: Path)
    requires Faithful(d, layer) && w != [] && Plain(w) && w !in d.nodes && AncestorsWritten(d, layer, |layer|, w)
    ensures Faithful(d, layer + [WhiteoutEntry(w)])
  {
    var e := WhiteoutEntry(w);
    var name := e.name;
    forall k | 0 <= k < |name| ensures IsDir(d.nodes, name[..k]) && Described(d, layer, |layer|, name[..k]) {
      assert name[..k] == Parent(w)[..k] == w[..k];
    }
    AncestorsExtend(d, layer, e, |layer|, name);
    assert (layer + [e])[|layer|] == e;
    FaithfulGrows(d, layer, e);
  }

  ghost predicate Under(p: Path, listed: seq<Path>) {
    exists f :: f in listed && p <= f
  }

  /** The entry whites out a listed path that is gone, or is for one at or above a listed path. */
  ghost predicate CoveredEntry(d: Disk, e: TarEntry, listed: seq<Path>) {
    || (exists w :: w in listed && w != [] && Plain(w) && w !in d.nodes && e == WhiteoutEntry(w))
    || (e.name in d.nodes && Under(e.name, listed) && (e.body.HardlinkBody? ==> Under(e.body.original, listed)))
  }

  ghost predicate Covered(d: Disk, layer: Layer, listed: seq<Path>) {
    forall i :: 0 <= i < |layer| ==> CoveredEntry(d, layer[i], listed)
  }

  /** The paths are on the disk. */
  ghost predicate Listable(d: Disk, files: seq<Path>) {
    forall f :: f in files ==> f in d.nodes
  }

  /** The paths are gone while their parent is still there, in whatever form. */
  ghost predicate Whitable(d: Disk, whiteouts: seq<Path>) {
    forall w :: w in whiteouts ==> w != [] && w !in d.nodes && Plain(w) && Parent(w) in d.nodes
  }

  lemma CoveredGrows(d: Disk, layer: Layer, e: TarEntry, listed: seq<Path>)
    requires Covered(d, layer, listed) && CoveredEntry(d, e, listed)
    ensures Covered(d, layer + [e], listed)
  {
    hide CoveredEntry;
  }

  // ---------------------------------------------------------------------------------------------
  // Nothing is written twice
  // ---------------------------------------------------------------------------------------------

  /** Two entries share a name only if one is the file of that name and the other the whiteout that is called like it. */
  ghost predicate OnceEach(d: Disk, layer: Layer, whited: set<Path>) {
    forall i, j :: 0 <= i < j < |layer| && layer[i].name == layer[j].name ==>
      layer[i].name in d.nodes && IsMarker(layer[i].name) && Whited(layer[i].name) in whited
  }

  /** Every entry is for an added path or the whiteout of one of these. */
  ghost predicate Accounted(layer: Layer, added: set<Path>, whited: set<Path>) {
    forall i :: 0 <= i < |layer| ==> layer[i].name in added || WhiteoutOf(layer[i], whited)
  }

  ghost predicate WhiteoutOf(e: TarEntry, whited: set<Path>) {
    exists w :: w in whited && w != [] && Plain(w) && e == WhiteoutEntry(w)
  }

  ghost predicate NoRepeats(d: Disk, layer: Layer, added: set<Path>, whited: set<Path>) {
    OnceEach(d, layer, whited) && Accounted(layer, added, whited) && forall p :: p in added ==> p in d.nodes
  }

  lemma AddRepeatsNothing(d: Disk, layer: Layer, added: set<Path>, whited: set<Path>, p: Path, e: TarEntry)
    requires NoRepeats(d, layer, added, whited) && p in d.nodes && p !in added && e.name == p
    ensures NoRepeats(d, layer + [e], added + {p}, whited)
  {
    var all := layer + [e];
    forall i | 0 <= i < |layer| && layer[i].name == p ensures IsMarker(p) && Whited(p) in whited {
      assert WhiteoutOf(layer[i], whited);
    }
    forall i, j | 0 <= i < j < |all| && all[i].name == all[j].name
      ensures all[i].name in d.nodes && IsMarker(all[i].name) && Whited(all[i].name) in whited
    {
      assert all[i] == layer[i];
    }
  }

  lemma WhiteoutDecodes(e: TarEntry, whited: set<Path>)
    ensures WhiteoutOf(e, whited) ==> IsMarker(e.name) && Whited(e.name) in whited
  {
  }

  lemma WhiteoutRepeatsNothing(d: Disk, layer: Layer, added: set<Path>, whited: set<Path>, w: Path)
    requires NoRepeats(d, layer, added, whited) && w !in whited && w != [] && Plain(w)
    ensures NoRepeats(d, layer + [WhiteoutEntry(w)], added, whited + {w})
  {
    var e := WhiteoutEntry(w);
    var all := layer + [e];
    forall i | 0 <= i < |layer| && layer[i].name == e.name ensures e.name in d.nodes {
      WhiteoutDecodes(layer[i], whited);
    }
    forall i, j | 0 <= i < j < |all| && all[i].name == all[j].name
      ensures all[i].name in d.nodes && IsMarker(all[i].name) && Whited(all[i].name) in whited + {w}
    {
      assert all[i] == layer[i];
    }
    forall i | 0 <= i < |all| ensures all[i].name in added || WhiteoutOf(all[i], whited + {w}) {
      if i < |layer| {
        assert all[i] == layer[i];
      }
    }
  }

  function FirstOf(ps: seq<Path>, n: nat): set<Path>
    requires n <= |ps|
  {
    set k | 0 <= k < n :: ps[k]
  }

  lemma FirstNext(ps: seq<Path>, n: nat)
    requires n < |ps|
    ensures FirstOf(ps, n + 1) == FirstOf(ps, n) + {ps[n]}
    ensures Distinct(ps) ==> ps[n] !in FirstOf(ps, n)
  {
  }

  lemma LayerPrefix(a: Layer, b: Layer, c: Layer)
    requires a <= b <= c
    ensures a <= c
  {
    assert a == b[..|a|] == c[..|b|][..|a|] == c[..|a|];
  }

  predicate AllIn(ps: seq<Path>, i: nat, s: set<Path>) {
    i <= |ps| && forall k :: 0 <= k < i ==> ps[k] in s
  }

  lemma AllInNext(ps: seq<Path>, i: nat, s: set<Path>)
    requires AllIn(ps, i, s) && i < |ps|
    ensures AllIn(ps, i + 1, s + {ps[i]})
    ensures ps[i] in s ==> AllIn(ps, i + 1, s)
  {
  }

  /** Directories that were added are written. */
  lemma AncestorsAdded(d: Disk, layer: Layer, links: map<nat, Path>, added: set<Path>, path: Path, i: nat)
    requires Books(d, layer, links, added) && Literal(d.nodes, path) && i <= |path|
    requires AllIn(ParentDirs(path), i, added)
    ensures AncestorsWritten(d, layer, |layer|, path[..i])
  {
    hide Described, Told, Written, Original;
    forall k | 0 <= k < i ensures IsDir(d.nodes, path[..i][..k]) && Described(d, layer, |layer|, path[..i][..k]) {
      assert path[..i][..k] == path[..k] == ParentDirs(path)[k];
      assert IsDir(d.nodes, path[..k]);
    }
  }

  lemma ParentCanBeAdded(d: Disk, layer: Layer, links: map<nat, Path>, added: set<Path>, path: Path, i: nat)
    requires Closed(d.nodes) && Books(d, layer, links, added) && Literal(d.nodes, path)
    requires i < |path| || (path == [] && i == 0)
    requires AllIn(ParentDirs(path), i, added) && path[..i] !in added
    ensures CanAdd(d, layer, added, path[..i])
  {
    AncestorsAdded(d, layer, links, added, path, i);
    if i < |path| {
      assert IsDir(d.nodes, path[..i]);
    }
  }

  lemma UnderAbove(listed: seq<Path>, p: Path, path: Path)
    requires p <= path && Under(path, listed)
    ensures Under(p, listed)
  {
    var f :| f in listed && path <= f;
    PrefixTransitive(p, path, f);
  }

  // ---------------------------------------------------------------------------------------------
  // The layer as a function of the lists
  // ---------------------------------------------------------------------------------------------

  /** What has been written so far: the entries, the first name of each linked inode, and the paths that are in. */
  datatype Progress = Progress(entries: Layer, links: map<nat, Path>, added: set<Path>)

  /** One path, unless it is in already; sockets are in without an entry. */
  function PutOne(d: Disk, w: Progress, p: Path): Progress {
    if p in w.added || p !in d.nodes || p !in d.ino || p !in d.nlink then w
    else if IsSocket(d.nodes[p]) then w.(added := w.added + {p})
    else Progress(w.entries + [EntryFor(d, w.links, p, p)], LinksAfter(d, w.links, p, p), w.added + {p})
  }

  function PutAll(d: Disk, w: Progress, ps: seq<Path>): Progress {
    if ps == [] then w else PutOne(d, PutAll(d, w, ps[..|ps| - 1]), ps[|ps| - 1])
  }

  /** Files, each after the directories that hold it. */
  function PutFiles(d: Disk, w: Progress, files: seq<Path>): Progress {
    if files == [] then w
    else
      var f := files[|files| - 1];
      PutOne(d, PutAll(d, PutFiles(d, w, files[..|files| - 1]), ParentDirs(f)), f)
  }

  /** Whiteouts, each after the directories that hold it, where these are directories. */
  function PutWhiteouts(d: Disk, w: Progress, whiteouts: seq<Path>): Progress {
    if whiteouts == [] then w
    else
      var before, gone := PutWhiteouts(d, w, whiteouts[..|whiteouts| - 1]), whiteouts[|whiteouts| - 1];
      if gone == [] || !Plain(gone) || !IsDir(d.nodes, Parent(gone)) then before
      else
        var held := PutAll(d, before, ParentDirs(gone));
        held.(entries := held.entries + [WhiteoutEntry(gone)])
  }

  function TarOf(d: Disk, files: seq<Path>, whiteouts: seq<Path>): Layer {
    PutFiles(d, PutWhiteouts(d, Progress([], map[], {}), whiteouts), files).entries
  }

  lemma PutAllNext(d: Disk, w: Progress, ps: seq<Path>, i: nat)
    requires i < |ps|
    ensures PutAll(d, w, ps[..i + 1]) == PutOne(d, PutAll(d, w, ps[..i]), ps[i])
    ensures PutAll(d, w, ps[..0]) == w && ps[..|ps|] == ps
  {
    assert ps[..i + 1][..i] == ps[..i];
  }

  lemma PutFilesNext(d: Disk, w: Progress, files: seq<Path>, i: nat)
    requires i < |files|
    ensures PutFiles(d, w, files[..i + 1]) == PutOne(d, PutAll(d, PutFiles(d, w, files[..i]), ParentDirs(files[i])), files[i])
  {
    assert files[..i + 1][..i] == files[..i];
  }

  lemma PutWhiteoutsNext(d: Disk, w: Progress, whiteouts: seq<Path>, i: nat)
    requires i < |whiteouts| && whiteouts[i] != [] && Plain(whiteouts[i])
    ensures var before, gone := PutWhiteouts(d, w, whiteouts[..i]), whiteouts[i];
      PutWhiteouts(d, w, whiteouts[..i + 1])
      == if !IsDir(d.nodes, Parent(gone)) then before
         else var held := PutAll(d, before, ParentDirs(gone)); held.(entries := held.entries + [WhiteoutEntry(gone)])
  {
    assert whiteouts[..i + 1][..i] == whiteouts[..i];
  }

  lemma AlreadyIn(d: Disk, w: Progress, p: Path)
    ensures p in w.added ==> PutOne(d, w, p) == w
  {
  }

  lemma NothingPut(d: Disk, w: Progress)
    ensures PutAll(d, w, []) == PutFiles(d, w, []) == PutWhiteouts(d, w, []) == w
  {
  }

  class Tar {
    var hardlinks: map<nat, Path>
    var entries: Layer

    constructor ()
      ensures hardlinks == map[] && entries == []
    {
      hardlinks := map[];
      entries := [];
    }

    /** `checkHardlink`: a second name of a known inode becomes a link to the first. */
    method CheckHardlink(d: Disk, p: Path, q: Path) returns (hardlink: bool, linkDst: Path)
      requires q in d.nodes && q in d.ino && q in d.nlink
      modifies this`hardlinks
      ensures hardlinks == LinksAfter(d, old(hardlinks), p, q)
      ensures hardlink <==> EntryFor(d, old(hardlinks), p, q).body.HardlinkBody?
      ensures hardlink ==> EntryFor(d, old(hardlinks), p, q).body.original == linkDst
    {
      hardlink, linkDst := false, [];
      if d.nlink[q] > 1 {
        var inode := d.ino[q];
        if inode in hardlinks && hardlinks[inode] != p {
          hardlink, linkDst := true, hardlinks[inode];
        } else {
          hardlinks := hardlinks[inode := p];
        }
      }
    }

    /** `AddFileToTar`: fails on a missing path and passes over sockets. */
    method AddFileToTar(d: Disk, p: Path) returns (ok: bool)
      requires d.ino.Keys == d.nodes.Keys && d.nlink.Keys == d.nodes.Keys
      modifies this
      ensures ok <==> Lstat(d.nodes, p).Found?
      ensures !ok ==> entries == old(entries) && hardlinks == old(hardlinks)
      ensures ok ==> var q := Lstat(d.nodes, p).path;
        if d.nodes[q].Special? && d.nodes[q].socket then
          entries == old(entries) && hardlinks == old(hardlinks)
        else
          && entries == old(entries) + [EntryFor(d, old(hardlinks), p, q)]
          && hardlinks == LinksAfter(d, old(hardlinks), p, q)
    {
      var found := Lstat(d.nodes, p);
      if !found.Found? {
        return false;
      }
      var q := found.path;
      ok := true;
      if d.nodes[q].Special? && d.nodes[q].socket {
        return;
      }
      var body := BodyOf(d.nodes[q]);
      var hardlink, linkDst := CheckHardlink(d, p, q);
      if hardlink {
        body := HardlinkBody(linkDst);
      }
      entries := entries + [TarEntry(p, body)];
    }

    /** `Tar.Whiteout`. */
    method Whiteout(w: Path)
      requires w != [] && Plain(w)
      modifies this`entries
      ensures entries == old(entries) + [WhiteoutEntry(w)]
    {
      entries := entries + [TarEntry(Parent(w) + [WHITEOUT_PREFIX + Base(w)], RegBody(0, ""))];
    }

    /** Faithful so far, about listed paths only, and the books agree. */
    ghost predicate Writing(d: Disk, added: set<Path>, listed: seq<Path>)
      reads this
    {
      && Sane(d) && Faithful(d, entries) && Books(d, entries, hardlinks, added)
      && Covered(d, entries, listed) && forall p :: p in added ==> Under(p, listed)
    }

    /** Adds one path that can be added, sockets included. */
    method AddOne(d: Disk, ghost added: set<Path>, p: Path, ghost listed: seq<Path>, ghost whited: set<Path>) returns (ok: bool)
      requires Writing(d, added, listed) && CanAdd(d, entries, added, p) && Under(p, listed)
      modifies this
      ensures ok && Writing(d, added + {p}, listed)
      ensures old(entries) <= entries
      ensures NoRepeats(d, old(entries), added, whited) ==> NoRepeats(d, entries, added + {p}, whited)
      ensures Progress(entries, hardlinks, added + {p}) == PutOne(d, Progress(old(entries), old(hardlinks), added), p)
    {
      hide Faithful, Books, Covered, CoveredEntry, Under, AncestorsWritten, OnceEach, WhiteoutOf;
      ghost var layer, links := entries, hardlinks;
      LstatPresent(d.nodes, p);
      ok := AddFileToTar(d, p);
      if !IsSocket(d.nodes[p]) {
        AddKeepsFaithful(d, layer, links, added, p);
        AddKeepsBooks(d, layer, links, added, p);
        AddedCovered(d, layer, links, added, p, listed);
        CoveredGrows(d, layer, EntryFor(d, links, p, p), listed);
        EntryName(d, links, p);
        if NoRepeats(d, layer, added, whited) {
          AddRepeatsNothing(d, layer, added, whited, p, EntryFor(d, links, p, p));
        }
      } else {
        SocketKeepsBooks(d, layer, links, added, p);
      }
    }

    /** `addParentDirectories`: the directories above the path that are not in the layer yet. */
    method AddParentDirectories(d: Disk, added: set<Path>, path: Path, ghost listed: seq<Path>, ghost whited: set<Path>)
      returns (ok: bool, after: set<Path>)
      requires Writing(d, added, listed) && Literal(d.nodes, path) && Under(path, listed)
      modifies this
      ensures ok && Writing(d, after, listed) && added <= after
      ensures old(entries) <= entries
      ensures AncestorsWritten(d, entries, |entries|, path)
      ensures path == [] ==> [] in after
      ensures NoRepeats(d, old(entries), added, whited) ==> NoRepeats(d, entries, after, whited)
      ensures Progress(entries, hardlinks, after) == PutAll(d, Progress(old(entries), old(hardlinks), added), ParentDirs(path))
    {
      hide Sane, Faithful, Books, Covered, Under, AncestorsWritten, NoRepeats, PutOne, PutAll;
      after := added;
      var parents := ParentDirectories(path);
      ghost var start := Progress(entries, hardlinks, added);
      NothingPut(d, start);
      for i := 0 to |parents|
        invariant Writing(d, after, listed) && added <= after
        invariant old(entries) <= entries
        invariant AllIn(parents, i, after)
        invariant NoRepeats(d, old(entries), added, whited) ==> NoRepeats(d, entries, after, whited)
        invariant Progress(entries, hardlinks, after) == PutAll(d, start, parents[..i])
      {
        var parent := parents[i];
        assert parent == path[..i] && parent <= path;
        PutAllNext(d, start, parents, i);
        AlreadyIn(d, Progress(entries, hardlinks, after), parent);
        AllInNext(parents, i, after);
        if parent in after {
          continue;
        }
        SaneIsClosed(d);
        ParentCanBeAdded(d, entries, hardlinks, after, path, i);
        UnderAbove(listed, parent, path);
        ghost var sofar := entries;
        ok := AddOne(d, after, parent, listed, whited);
        LayerPrefix(old(entries), sofar, entries);
        if !ok {
          return false, after;
        }
        after := after + {parent};
      }
      assert parents[..|parents|] == parents;
      assert |parents| > 0 && parents[0] == [];
      assert parents[0] in after;
      assert path[..|path|] == path;
      AncestorsAdded(d, entries, hardlinks, after, path, |path|);
      ok := true;
    }
  }

  lemma SaneIsClosed(d: Disk)
    requires Sane(d)
    ensures Closed(d.nodes)
  {
  }

  lemma SocketKeepsBooks(d: Disk, layer: Layer, links: map<nat, Path>, added: set<Path>, p: Path)
    requires Books(d, layer, links, added) && p in d.nodes && IsSocket(d.nodes[p])
    ensures Books(d, layer, links, added + {p})
  {
    hide Told, Described, Written, Original;
  }

  lemma AddedCovered(d: Disk, layer: Layer, links: map<nat, Path>, added: set<Path>, p: Path, listed: seq<Path>)
    requires Books(d, layer, links, added) && p in d.nodes && p in d.ino && p in d.nlink && Under(p, listed)
    requires forall q :: q in added ==> Under(q, listed)
    ensures CoveredEntry(d, EntryFor(d, links, p, p), listed)
  {
    hide Under, Told, Described, Written, Original;
  }

  /** Below directories, looking at an ancestor tells whether it is there; an absent parent is the only absent one. */
  lemma AncestorFound(nodes: Nodes, path: Path, i: nat)
    requires Closed(nodes) && Plain(path) && (i < |path| || i == |path| == 0)
    requires forall k :: 0 <= k < i ==> IsDir(nodes, path[..k])
    ensures Lstat(nodes, path[..i]).Found? ==> Lstat(nodes, path[..i]) == Found(path[..i]) && path[..i] in nodes
    ensures path == [] ==> IsDir(nodes, path[..i])
    ensures Parent(path) in nodes ==> Lstat(nodes, path[..i]).Found? && (i < |Parent(path)| ==> IsDir(nodes, path[..i]))
  {
    var p := path[..i];
    assert Literal(nodes, p) by {
      forall k | 0 <= k < i ensures IsDir(nodes, p[..k]) {
        assert p[..k] == path[..k];
      }
    }
    if p in nodes {
      LstatPresent(nodes, p);
    } else {
      LstatAbsent(nodes, p);
    }
    if Parent(path) in nodes {
      assert p == Parent(path)[..i];
      ClosedPrefix(nodes, Parent(path), i);
    }
  }

  /** `parentPathIncludesNonDirectory`. */
  method ParentPathIncludesNonDirectory(d: Disk, path: Path) returns (ok: bool, skip: bool)
    requires Closed(d.nodes) && Plain(path)
    ensures Parent(path) in d.nodes ==> ok && (skip <==> !IsDir(d.nodes, Parent(path)))
    ensures skip ==> exists k :: 0 <= k < |path| && path[..k] in d.nodes && !d.nodes[path[..k]].Dir?
  {
    hide Lstat, Literal, Closed;
    var parents := ParentDirectories(path);
    for i := 0 to |parents|
      invariant forall k :: 0 <= k < i ==> IsDir(d.nodes, parents[k])
    {
      assert parents[i] == path[..i];
      AncestorFound(d.nodes, path, i);
      var lstat := Lstat(d.nodes, parents[i]);
      if !lstat.Found? {
        return false, false;
      }
      if !IsDir(d.nodes, lstat.path) {
        assert i == |Parent(path)| ==> path[..i] == Parent(path);
        return true, true;
      }
    }
    assert Parent(path) == parents[|parents| - 1];
    return true, false;
  }

  lemma ChildLiteral(nodes: Nodes, w: Path)
    requires Closed(nodes) && w != [] && IsDir(nodes, Parent(w))
    ensures Literal(nodes, w)
  {
    ClosedLiteral(nodes, Parent(w));
    forall k | 0 <= k < |w| ensures IsDir(nodes, w[..k]) {
      if k < |w| - 1 { assert w[..k] == Parent(w)[..k]; }
    }
  }

  /** The layer whites the path out. */
  ghost predicate WhitedIn(layer: Layer, w: Path) {
    exists j :: 0 <= j < |layer| && WhitesOut(layer[j], w)
  }

  lemma WhitedStays(layer: Layer, longer: Layer, w: Path)
    requires layer <= longer && WhitedIn(layer, w)
    ensures WhitedIn(longer, w)
  {
    var j :| 0 <= j < |layer| && WhitesOut(layer[j], w);
    assert longer[j] == layer[j];
  }

  /** The first `n` deleted paths are whited out, unless their parent is no directory. */
  ghost predicate WhitedOutUpTo(d: Disk, layer: Layer, whiteouts: seq<Path>, n: nat)
    requires n <= |whiteouts|
  {
    forall k :: 0 <= k < n && whiteouts[k] != [] && IsDir(d.nodes, Parent(whiteouts[k])) ==>
      WhitedIn(layer, whiteouts[k])
  }

  lemma WhitedUpToStays(d: Disk, layer: Layer, longer: Layer, whiteouts: seq<Path>, n: nat)
    requires n <= |whiteouts| && layer <= longer && WhitedOutUpTo(d, layer, whiteouts, n)
    ensures WhitedOutUpTo(d, longer, whiteouts, n)
  {
    forall k | 0 <= k < n && whiteouts[k] != [] && IsDir(d.nodes, Parent(whiteouts[k]))
      ensures WhitedIn(longer, whiteouts[k])
    {
      WhitedStays(layer, longer, whiteouts[k]);
    }
  }

  lemma WhitedUpToNext(d: Disk, layer: Layer, whiteouts: seq<Path>, n: nat)
    requires n < |whiteouts| && WhitedOutUpTo(d, layer, whiteouts, n) && whiteouts[n] != []
    requires IsDir(d.nodes, Parent(whiteouts[n])) ==> WhitedIn(layer, whiteouts[n])
    ensures WhitedOutUpTo(d, layer, whiteouts, n + 1)
  {
  }

  /** What the layer of a snapshot is: true of the disk, about listed paths only, and complete, sockets aside. */
  ghost predicate LayerOf(d: Disk, files: seq<Path>, whiteouts: seq<Path>, layer: Layer) {
    && Faithful(d, layer)
    && Covered(d, layer, whiteouts + files)
    && (forall f :: f in files && f in d.nodes && !IsSocket(d.nodes[f]) ==> Told(d, layer, f))
    && WhitedOutUpTo(d, layer, whiteouts, |whiteouts|)
  }

  /** One deleted path: the directories that hold it, then its marker. */
  method AddWhiteout(t: Tar, d: Disk, added: set<Path>, path: Path, ghost listed: seq<Path>, ghost whited: set<Path>)
    returns (ok: bool, after: set<Path>)
    requires t.Writing(d, added, listed)
    requires path != [] && path !in d.nodes && Plain(path) && IsDir(d.nodes, Parent(path)) && path in listed
    modifies t
    ensures ok && t.Writing(d, after, listed)
    ensures old(t.entries) <= t.entries && WhitedIn(t.entries, path)
    ensures NoRepeats(d, old(t.entries), added, whited) && path !in whited ==> NoRepeats(d, t.entries, after, whited + {path})
    ensures var held := PutAll(d, Progress(old(t.entries), old(t.hardlinks), added), ParentDirs(path));
      Progress(t.entries, t.hardlinks, after) == held.(entries := held.entries + [WhiteoutEntry(path)])
  {
    hide Sane, Faithful, Books, Covered, AncestorsWritten, NoRepeats, PutAll;
    SaneIsClosed(d);
    ChildLiteral(d.nodes, path);
    assert path in listed && path <= path;
    ok, after := t.AddParentDirectories(d, added, path, listed, whited);
    if !ok {
      return;
    }
    ghost var between := t.entries;
    if NoRepeats(d, between, after, whited) && path !in whited {
      WhiteoutRepeatsNothing(d, between, after, whited, path);
    }
    WhiteoutKeepsFaithful(d, between, path);
    MarkerKeepsBooks(d, between, t.hardlinks, after, WhiteoutEntry(path));
    CoveredGrows(d, between, WhiteoutEntry(path), listed);
    t.Whiteout(path);
    LayerPrefix(old(t.entries), between, t.entries);
    assert t.entries[|between|] == WhiteoutEntry(path);
  }

  lemma MoreWhited(d: Disk, layer: Layer, added: set<Path>, whited: set<Path>, more: set<Path>)
    requires NoRepeats(d, layer, added, whited) && whited <= more
    ensures NoRepeats(d, layer, added, more)
  {
    forall i | 0 <= i < |layer| ensures layer[i].name in added || WhiteoutOf(layer[i], more) {
    }
  }

  /** The first `n` whiteouts have been written, as far as their directories are directories. */
  ghost predicate WhiteoutsDone(t: Tar, d: Disk, added: set<Path>, whiteouts: seq<Path>, n: nat)
    requires n <= |whiteouts|
    reads t
  {
    && t.Writing(d, added, whiteouts)
    && WhitedOutUpTo(d, t.entries, whiteouts, n)
    && (Distinct(whiteouts) ==> NoRepeats(d, t.entries, added, FirstOf(whiteouts, n)))
    && Progress(t.entries, t.hardlinks, added) == PutWhiteouts(d, Progress([], map[], {}), whiteouts[..n])
  }

  /** One round of the loop: a deleted path is passed over if it is no longer below a directory. */
  method WriteWhiteout(t: Tar, d: Disk, added: set<Path>, whiteouts: seq<Path>, i: nat) returns (ok: bool, after: set<Path>)
    requires Sane(d) && Whitable(d, whiteouts) && i < |whiteouts| && WhiteoutsDone(t, d, added, whiteouts, i)
    modifies t
    ensures ok && WhiteoutsDone(t, d, after, whiteouts, i + 1)
  {
    hide Sane, Faithful, Books, Covered, CoveredEntry, WhitedOutUpTo, WhitedIn, NoRepeats, FirstOf, Distinct, PutWhiteouts, PutAll;
    ghost var whited, before := FirstOf(whiteouts, i), t.entries;
    FirstNext(whiteouts, i);
    var path := whiteouts[i];
    assert path in whiteouts;
    PutWhiteoutsNext(d, Progress([], map[], {}), whiteouts, i);
    SaneIsClosed(d);
    after := added;
    var checked, skipWhiteout := ParentPathIncludesNonDirectory(d, path);
    if !checked {
      return false, added;
    }
    if skipWhiteout {
      WhitedUpToNext(d, t.entries, whiteouts, i);
      if Distinct(whiteouts) {
        MoreWhited(d, t.entries, added, whited, whited + {path});
      }
      return true, added;
    }
    ok, after := AddWhiteout(t, d, added, path, whiteouts, whited);
    if !ok {
      return;
    }
    WhitedUpToStays(d, before, t.entries, whiteouts, i);
    WhitedUpToNext(d, t.entries, whiteouts, i);
  }

  lemma NoneDone(t: Tar, d: Disk, whiteouts: seq<Path>)
    requires Sane(d) && t.entries == [] && t.hardlinks == map[]
    ensures WhiteoutsDone(t, d, {}, whiteouts, 0)
  {
    NothingPut(d, Progress([], map[], {}));
  }

  /** The whiteout half of `writeToTar`. */
  method WriteWhiteouts(t: Tar, d: Disk, whiteouts: seq<Path>)
    returns (ok: bool, added: set<Path>)
    requires t.entries == [] && t.hardlinks == map[]
    requires Sane(d) && Whitable(d, whiteouts)
    modifies t
    ensures ok && t.Writing(d, added, whiteouts)
    ensures WhitedOutUpTo(d, t.entries, whiteouts, |whiteouts|)
    ensures Distinct(whiteouts) ==> NoRepeats(d, t.entries, added, FirstOf(whiteouts, |whiteouts|))
    ensures Progress(t.entries, t.hardlinks, added) == PutWhiteouts(d, Progress([], map[], {}), whiteouts)
  {
    added := {};
    NoneDone(t, d, whiteouts);
    hide Sane, Whitable, Faithful, Books, Covered, WhitedOutUpTo, NoRepeats, FirstOf, Distinct, PutWhiteouts;
    for i := 0 to |whiteouts|
      invariant WhiteoutsDone(t, d, added, whiteouts, i)
    {
      ok, added := WriteWhiteout(t, d, added, whiteouts, i);
      if !ok {
        return;
      }
    }
    assert whiteouts[..|whiteouts|] == whiteouts;
    ok := true;
  }

  /** One listed file: the directories that hold it, then the file itself, if it has not been added as one of those. */
  method AddFile(t: Tar, d: Disk, added: set<Path>, path: Path, ghost listed: seq<Path>, ghost whited: set<Path>)
    returns (ok: bool, after: set<Path>)
    requires t.Writing(d, added, listed) && path in d.nodes && path in listed
    modifies t
    ensures ok && t.Writing(d, after, listed) && added + {path} <= after
    ensures old(t.entries) <= t.entries
    ensures NoRepeats(d, old(t.entries), added, whited) ==> NoRepeats(d, t.entries, after, whited)
    ensures Progress(t.entries, t.hardlinks, after)
         == PutOne(d, PutAll(d, Progress(old(t.entries), old(t.hardlinks), added), ParentDirs(path)), path)
  {
    hide Sane, Faithful, Books, Covered, AncestorsWritten, NoRepeats, PutAll, PutOne;
    SaneIsClosed(d);
    ClosedLiteral(d.nodes, path);
    assert path in listed && path <= path;
    ok, after := t.AddParentDirectories(d, added, path, listed, whited);
    AlreadyIn(d, Progress(t.entries, t.hardlinks, after), path);
    if !ok || path in after {
      return;
    }
    ghost var between := t.entries;
    ok := t.AddOne(d, after, path, listed, whited);
    LayerPrefix(old(t.entries), between, t.entries);
    after := after + {path};
  }

  lemma AddedTold(d: Disk, layer: Layer, links: map<nat, Path>, added: set<Path>, files: seq<Path>)
    requires Books(d, layer, links, added) && AllIn(files, |files|, added)
    ensures forall f :: f in files && f in d.nodes && !IsSocket(d.nodes[f]) ==> Told(d, layer, f)
  {
    hide Told;
  }

  lemma CoveredByMore(d: Disk, layer: Layer, added: set<Path>, some: seq<Path>, listed: seq<Path>)
    requires Covered(d, layer, some) && (forall p :: p in added ==> Under(p, some))
    requires forall p :: p in some ==> p in listed
    ensures Covered(d, layer, listed) && forall p :: p in added ==> Under(p, listed)
  {
    forall p | Under(p, some) ensures Under(p, listed) {
      var f :| f in some && p <= f;
      assert f in listed;
    }
    hide Under;
    forall i | 0 <= i < |layer| ensures CoveredEntry(d, layer[i], listed) {
      assert CoveredEntry(d, layer[i], some);
    }
  }

  /** The layer starts with the whiteouts and the directories that hold them. */
  ghost predicate WhiteoutsFirst(d: Disk, layer: Layer, whiteouts: seq<Path>) {
    exists n :: 0 <= n <= |layer| && Covered(d, layer[..n], whiteouts) && WhitedOutUpTo(d, layer[..n], whiteouts, |whiteouts|)
  }

  /**
   * `writeToTar`: whiteouts first, then files, each below the directories that hold it. The callers
   * list files that exist and whiteouts whose directory still does.
   */
  method WriteToTar(t: Tar, d: Disk, files: seq<Path>, whiteouts: seq<Path>) returns (ok: bool)
    requires t.entries == [] && t.hardlinks == map[]
    requires Sane(d) && Listable(d, files) && Whitable(d, whiteouts)
    modifies t
    ensures ok && LayerOf(d, files, whiteouts, t.entries) && WhiteoutsFirst(d, t.entries, whiteouts)
    ensures Distinct(whiteouts) ==> OnceEach(d, t.entries, FirstOf(whiteouts, |whiteouts|))
    ensures t.entries == TarOf(d, files, whiteouts)
  {
    hide Sane, Faithful, Books, Covered, WhitedOutUpTo, Told, OnceEach, WhiteoutOf, Distinct, PutAll, PutOne, PutFiles, PutWhiteouts;
    ghost var listed, whited := whiteouts + files, FirstOf(whiteouts, |whiteouts|);
    var added;
    ok, added := WriteWhiteouts(t, d, whiteouts);
    if !ok {
      return;
    }
    ghost var first, start := t.entries, Progress(t.entries, t.hardlinks, added);
    NothingPut(d, start);
    CoveredByMore(d, first, added, whiteouts, listed);
    for i := 0 to |files|
      invariant t.Writing(d, added, listed) && first <= t.entries
      invariant WhitedOutUpTo(d, t.entries, whiteouts, |whiteouts|)
      invariant AllIn(files, i, added)
      invariant Distinct(whiteouts) ==> NoRepeats(d, t.entries, added, whited)
      invariant Progress(t.entries, t.hardlinks, added) == PutFiles(d, start, files[..i])
    {
      PutFilesNext(d, start, files, i);
      ghost var before := t.entries;
      AllInNext(files, i, added);
      assert files[i] in listed;
      ok, added := AddFile(t, d, added, files[i], listed, whited);
      if !ok {
        return;
      }
      LayerPrefix(first, before, t.entries);
      WhitedUpToStays(d, before, t.entries, whiteouts, |whiteouts|);
    }
    assert t.entries[..|first|] == first && files[..|files|] == files;
    AddedTold(d, t.entries, t.hardlinks, added, files);
    ok := true;
  }
}

/** Tar layers and their extraction onto a tree. */
module Extraction {
  import opened Paths
  import opened IgnoreLists
  import opened Disks

  datatype Body =
    | DirBody(attr: int)
    | RegBody(attr: int, data: string)
    | SymlinkBody(target: Target)
    | HardlinkBody(original: Path)
    | SpecialBody(attr: int)

  datatype TarEntry = TarEntry(name: Path, body: Body)

  type Layer = seq<TarEntry>

  /** The tree a layer is extracted to; `next` is an inode number not yet in use. */
  datatype Tree = Tree(nodes: Nodes, ino: map<Path, nat>, next: nat)

  datatype Result = Done(tree: Tree) | Failed

  predicate Below(p: Path, q: Path) {
    p <= q
  }

  function Drop<T>(m: map<Path, T>, p: Path): map<Path, T> {
    map q | q in m && !Below(p, q) :: m[q]
  }

  function Without(t: Tree, p: Path): Tree {
    t.(nodes := Drop(t.nodes, p), ino := Drop(t.ino, p))
  }

  /** A new object with an inode of its own at a place that is known to be free. */
  function Create(t: Tree, p: Path, n: Node): Tree {
    Tree(t.nodes[p := n], t.ino[p := t.next], t.next + 1)
  }

  /** `os.RemoveAll`: removes a subtree; a path that does not exist is fine. */
  function RemoveAll(t: Tree, p: Path): Result {
    match Place(t.nodes, p)
    case Found(q) => Done(Without(t, q))
    case Missing => Done(t)
    case Broken => Failed
  }

  /** `os.Remove` of something that is not a directory. */
  function Remove(t: Tree, p: Path): Result {
    match Lstat(t.nodes, p)
    case Found(q) => Done(t.(nodes := t.nodes - {q}, ino := t.ino - {q}))
    case _ => Failed
  }

  const DIR_0755: int := 0x1ed

  /** `os.MkdirAll`. */
  function MkdirAll(t: Tree, p: Path, attr: int): Result
    decreases |p|
  {
    match StatPath(t.nodes, p)
    case Found(q) => if IsDir(t.nodes, q) then Done(t) else Failed
    case _ =>
      if p == [] then Failed
      else
        match MkdirAll(t, Parent(p), attr)
        case Failed => Failed
        case Done(t1) =>
          match Place(t1.nodes, p)
          case Found(q) => if q in t1.nodes then Failed else Done(Create(t1, q, Dir(attr)))
          case _ => Failed
  }

  /** `os.Chmod` and `os.Chown`, which follow links. */
  function SetAttr(t: Tree, p: Path, attr: int): Result {
    match StatPath(t.nodes, p)
    case Found(q) => if IsDir(t.nodes, q) then Done(t.(nodes := t.nodes[q := Dir(attr)])) else Failed
    case _ => Failed
  }

  /** `MkdirAllWithPermissions`: only something that `os.Stat` sees as no directory gives way. */
  function MkdirAllWithPermissions(t: Tree, p: Path, attr: int): Result {
    var cleared := ClearForDir(t, p);
    if cleared.Failed? then Failed else MakeDir(cleared.tree, p, attr)
  }

  function ClearForDir(t: Tree, p: Path): Result {
    match StatPath(t.nodes, p)
    case Found(q) => if IsDir(t.nodes, q) then Done(t) else Remove(t, p)
    case Missing => Done(t)
    case Broken => Failed
  }

  function MakeDir(t: Tree, p: Path, attr: int): Result {
    var made := MkdirAll(t, p, attr);
    if made.Failed? then Failed else SetAttr(made.tree, p, attr)
  }

  /** The parent of a regular file is made when `os.Stat` misses it or sees no directory. */
  function EnsureParent(t: Tree, p: Path): Result {
    match StatPath(t.nodes, Parent(p))
    case Found(d) => if IsDir(t.nodes, d) then Done(t) else MkdirAll(t, Parent(p), DIR_0755)
    case Missing => MkdirAll(t, Parent(p), DIR_0755)
    case Broken => Failed
  }

  /** Removes whatever has the name, so that a new object can take it. */
  function Clear(t: Tree, p: Path): Result {
    if Lstat(t.nodes, p).Missing? then Done(t) else RemoveAll(t, p)
  }

  function CreateAt(t: Tree, p: Path, n: Node): Result {
    match Place(t.nodes, p)
    case Found(q) => if q in t.nodes then Failed else Done(Create(t, q, n))
    case _ => Failed
  }

  /** `os.Link`. */
  function LinkAt(t: Tree, original: Path, p: Path): Result {
    match (Lstat(t.nodes, original), Place(t.nodes, p))
    case (Found(o), Found(q)) =>
      if q in t.nodes || IsDir(t.nodes, o) || o !in t.ino then Failed
      else Done(Tree(t.nodes[q := t.nodes[o]], t.ino[q := t.ino[o]], t.next))
    case _ => Failed
  }

  /** `ExtractFile` at the root; pipes, devices and sockets have no case and are skipped. */
  function ExtractFile(ign: IgnoreList, t: Tree, e: TarEntry): Result {
    if Ignored(ign, e.name) then Done(t)
    else
      match e.body
      case DirBody(attr) => MkdirAllWithPermissions(t, e.name, attr)
      case SpecialBody(_) => Done(t)
      case RegBody(attr, data) =>
        var ready := EnsureParent(t, e.name);
        if ready.Failed? then Failed else Replace(ready.tree, e.name, File(attr, data))
      case SymlinkBody(target) =>
        var ready := MkdirAll(t, Parent(e.name), DIR_0755);
        if ready.Failed? then Failed else Replace(ready.tree, e.name, Symlink(target))
      case HardlinkBody(original) =>
        if Ignored(ign, original) then Done(t)
        else
          var ready := MkdirAll(t, Parent(e.name), DIR_0755);
          if ready.Failed? then Failed
          else
            var clear := Clear(ready.tree, e.name);
            if clear.Failed? then Failed else LinkAt(clear.tree, original, e.name)
  }

  function Replace(t: Tree, p: Path, n: Node): Result {
    var clear := Clear(t, p);
    if clear.Failed? then Failed else CreateAt(clear.tree, p, n)
  }

  /** One tar entry of `GetFSFromLayers`. */
  function ApplyEntry(ign: IgnoreList, keepMarkers: bool, t: Tree, e: TarEntry): Result {
    if !IsMarker(e.name) then ExtractFile(ign, t, e)
    else
      var w := Whited(e.name);
      if Ignored(ign, w) || HoldsIgnored(ign, w) then Done(t)
      else
        var r := RemoveAll(t, w);
        if r.Failed? || !keepMarkers then r else ExtractFile(ign, r.tree, e)
  }

  function ApplyLayer(ign: IgnoreList, keepMarkers: bool, t: Tree, layer: Layer): Result {
    if layer == [] then Done(t)
    else
      var r := ApplyLayer(ign, keepMarkers, t, layer[..|layer| - 1]);
      if r.Failed? then Failed else ApplyEntry(ign, keepMarkers, r.tree, layer[|layer| - 1])
  }

  function ApplyLayers(ign: IgnoreList, keepMarkers: bool, t: Tree, layers: seq<Layer>): Result {
    if layers == [] then Done(t)
    else
      var r := ApplyLayers(ign, keepMarkers, t, layers[..|layers| - 1]);
      if r.Failed? then Failed else ApplyLayer(ign, keepMarkers, r.tree, layers[|layers| - 1])
  }

  /** Entry `j` of layer `i` fails, on a tree that everything before it has been extracted to. */
  ghost predicate StopsAt(ign: IgnoreList, keepMarkers: bool, t: Tree, layers: seq<Layer>, i: nat, j: nat, at: Tree)
    requires i < |layers| && j < |layers[i]|
  {
    var before := ApplyLayers(ign, keepMarkers, t, layers[..i]);
    && before.Done? && ApplyLayer(ign, keepMarkers, before.tree, layers[i][..j]) == Done(at)
    && ApplyEntry(ign, keepMarkers, at, layers[i][j]).Failed?
  }

  /** The root file system on disk, changed in place by extraction. */
  class RootFs {
    var tree: Tree

    constructor (t: Tree)
      ensures tree == t
    {
      tree := t;
    }

    /** `GetFSFromLayers`: extracts every entry of every layer in order, stopping at an error. */
    method GetFSFromLayers(ign: IgnoreList, keepMarkers: bool, layers: seq<Layer>)
      returns (ok: bool)
      modifies this
      ensures ok <==> ApplyLayers(ign, keepMarkers, old(tree), layers).Done?
      ensures ok ==> tree == ApplyLayers(ign, keepMarkers, old(tree), layers).tree
      ensures !ok ==> exists i, j ::
        0 <= i < |layers| && 0 <= j < |layers[i]| && StopsAt(ign, keepMarkers, old(tree), layers, i, j, tree)
    {
      ghost var start := tree;
      for i := 0 to |layers|
        invariant ApplyLayers(ign, keepMarkers, start, layers[..i]) == Done(tree)
      {
        assert layers[..i + 1][..i] == layers[..i];
        for j := 0 to |layers[i]|
          invariant ApplyLayers(ign, keepMarkers, start, layers[..i]).Done?
          invariant ApplyLayer(ign, keepMarkers, ApplyLayers(ign, keepMarkers, start, layers[..i]).tree, layers[i][..j]) == Done(tree)
        {
          assert layers[i][..j + 1][..j] == layers[i][..j];
          var r := ApplyEntry(ign, keepMarkers, tree, layers[i][j]);
          if r.Failed? {
            assert StopsAt(ign, keepMarkers, start, layers, i, j, tree);
            FailureStays(ign, keepMarkers, ApplyLayers(ign, keepMarkers, start, layers[..i]).tree, layers[i], j + 1);
            LayerFailureStays(ign, keepMarkers, start, layers, i + 1);
            return false;
          }
          tree := r.tree;
        }
        assert layers[i][..|layers[i]|] == layers[i];
      }
      assert layers[..|layers|] == layers;
      ok := true;
    }
  }

  lemma FailureStays(ign: IgnoreList, keep: bool, t: Tree, layer: Layer, j: nat)
    requires j <= |layer| && ApplyLayer(ign, keep, t, layer[..j]).Failed?
    ensures ApplyLayer(ign, keep, t, layer).Failed?
    decreases |layer|
  {
    if j == |layer| {
      assert layer[..j] == layer;
    } else {
      assert layer[..|layer| - 1][..j] == layer[..j];
      FailureStays(ign, keep, t, layer[..|layer| - 1], j);
    }
  }

  lemma LayerFailureStays(ign: IgnoreList, keep: bool, t: Tree, layers: seq<Layer>, j: nat)
    requires j <= |layers| && ApplyLayers(ign, keep, t, layers[..j]).Failed?
    ensures ApplyLayers(ign, keep, t, layers).Failed?
    decreases |layers|
  {
    if j == |layers| {
      assert layers[..j] == layers;
    } else {
      assert layers[..|layers| - 1][..j] == layers[..j];
      LayerFailureStays(ign, keep, t, layers[..|layers| - 1], j);
    }
  }
}

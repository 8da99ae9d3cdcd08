/** What a snapshot layer says about the disk it was taken from. */
module Changesets {
  import opened Options
  import opened Paths
  import opened IgnoreLists
  import opened Disks
  import opened Extraction
  import opened ExtractionSteps

  /** The disk as a snapshot sees it: `digest` is what the configured hasher returns, where it succeeds. */
  datatype Disk = Disk(nodes: Nodes, ino: map<Path, nat>, nlink: map<Path, nat>, digest: map<Path, string>)

  /** One device: names of one inode show the same object, and the link count knows about them. */
  ghost predicate Sane(d: Disk) {
    && Closed(d.nodes)
    && d.ino.Keys == d.nodes.Keys && d.nlink.Keys == d.nodes.Keys
    && (forall p :: p in d.nodes ==> Plain(p))
    && forall p, q :: p in d.nodes && q in d.nodes && p != q && d.ino[p] == d.ino[q] ==>
        d.nodes[p] == d.nodes[q] && !d.nodes[p].Dir? && d.nlink[p] > 1
  }

  /** What `tar.FileInfoHeader` makes of a node. */
  function BodyOf(n: Node): Body {
    match n
    case Dir(attr) => DirBody(attr)
    case File(attr, data) => RegBody(attr, data)
    case Symlink(target) => SymlinkBody(target)
    case Special(_, attr) => SpecialBody(attr)
  }

  /** The header and the content tell the whole node, except whether something special is a socket. */
  lemma BodyExact(m: Node, n: Node)
    ensures BodyOf(m) == BodyOf(n) <==> m == n || (m.Special? && n.Special? && m.attr == n.attr)
  {
  }

  /** The path an entry is about. */
  ghost function Subject(e: TarEntry): Path {
    if IsMarker(e.name) then Whited(e.name) else e.name
  }

  /** The entry is read back as the deletion of the path. */
  ghost predicate WhitesOut(e: TarEntry, w: Path) {
    IsMarker(e.name) && Whited(e.name) == w
  }

  /** One of the first `i` entries describes the path. */
  ghost predicate Written(layer: Layer, i: nat, p: Path)
    requires i <= |layer|
  {
    !IsMarker(p) && exists j :: 0 <= j < i && layer[j].name == p
  }

  /** One of the first `i` entries gives the path with its content. */
  ghost predicate Described(d: Disk, layer: Layer, i: nat, p: Path)
    requires i <= |layer|
  {
    p in d.nodes && exists j :: 0 <= j < i && layer[j] == TarEntry(p, BodyOf(d.nodes[p]))
  }

  ghost predicate AncestorsWritten(d: Disk, layer: Layer, i: nat, p: Path)
    requires i <= |layer|
  {
    forall k :: 0 <= k < |p| ==> IsDir(d.nodes, p[..k]) && Described(d, layer, i, p[..k])
  }

  /** A link entry names an earlier entry for the same inode that carries the content. */
  ghost predicate LinksBack(d: Disk, layer: Layer, i: nat)
    requires i < |layer| && layer[i].body.HardlinkBody? && layer[i].name in d.ino
  {
    var o := layer[i].body.original;
    o != layer[i].name && o in d.ino && d.ino[o] == d.ino[layer[i].name] && Described(d, layer, i, o)
  }

  /** An entry with content is the first one for its inode. */
  ghost predicate FirstOfInode(d: Disk, layer: Layer, i: nat)
    requires i < |layer| && layer[i].name in d.ino
  {
    forall j :: 0 <= j < i && !IsMarker(layer[j].name) && layer[j].name in d.ino ==>
      d.ino[layer[j].name] != d.ino[layer[i].name]
  }

  /** The entry whites out a path that is gone. */
  ghost predicate TrueWhiteout(d: Disk, e: TarEntry) {
    IsMarker(e.name) && e.body.RegBody? && Whited(e.name) !in d.nodes
  }

  /** The entry shows the file of its name: only files with a marker's name may come twice. */
  ghost predicate Shows(d: Disk, layer: Layer, i: nat)
    requires i < |layer|
  {
    var e := layer[i];
    && e.name in d.nodes && e.name in d.ino && !Written(layer, i, e.name)
    && if e.body.HardlinkBody? then LinksBack(d, layer, i)
       else e.body == BodyOf(d.nodes[e.name]) && FirstOfInode(d, layer, i)
  }

  ghost predicate EntryOk(d: Disk, layer: Layer, i: nat)
    requires i < |layer|
  {
    AncestorsWritten(d, layer, i, layer[i].name) && (TrueWhiteout(d, layer[i]) || Shows(d, layer, i))
  }

  /** Every entry is true of the disk and comes after the directories that hold it. */
  ghost predicate Faithful(d: Disk, layer: Layer) {
    forall i :: 0 <= i < |layer| ==> EntryOk(d, layer, i)
  }

  /** The name is not ignored nor below a marker's; a marker does not delete the root. */
  ghost predicate VisibleName(ign: IgnoreList, name: Path) {
    && Plain(name) && !Hidden(ign, Parent(name))
    && if IsMarker(name) then Whited(name) != ROOT else !Hidden(ign, name)
  }

  /** The layer speaks of no ignored path and of nothing below a marker. */
  ghost predicate Visible(ign: IgnoreList, layer: Layer) {
    forall i :: 0 <= i < |layer| ==>
      && VisibleName(ign, layer[i].name)
      && (layer[i].body.HardlinkBody? ==> !Ignored(ign, layer[i].body.original))
  }

  function At(nodes: Nodes, p: Path): Option<Node> {
    if p in nodes then Some(nodes[p]) else None
  }

  /** Trees that a layer cannot tell apart. */
  ghost predicate Agree(ign: IgnoreList, a: Nodes, b: Nodes) {
    forall q :: !Hidden(ign, q) ==> At(a, q) == At(b, q)
  }

  /** Every visible path whose node differs is described, sockets aside. */
  ghost predicate ChangesWritten(ign: IgnoreList, a: Nodes, d: Disk, layer: Layer) {
    forall q :: q in d.nodes && !Hidden(ign, q) && At(a, q) != Some(d.nodes[q]) && !d.nodes[q].Special? ==>
      Written(layer, |layer|, q)
  }

  /** Every topmost deleted path whose directory is still one is whited out. */
  ghost predicate DeletionsWritten(ign: IgnoreList, a: Nodes, d: Disk, layer: Layer) {
    forall w :: w in a && w !in d.nodes && !Hidden(ign, w) && IsDir(d.nodes, Parent(w)) && w != [] ==>
      exists j :: 0 <= j < |layer| && WhitesOut(layer[j], w)
  }

  // ---------------------------------------------------------------------------------------------
  // What extraction takes away, skips and finds
  // ---------------------------------------------------------------------------------------------

  /** Extraction of the entry takes away the path with all below its subject, whatever the entry was written for. */
  ghost predicate Erases(ign: IgnoreList, e: TarEntry, q: Path) {
    && IsMarker(e.name) && Below(Whited(e.name), q)
    && !Ignored(ign, Whited(e.name)) && !HoldsIgnored(ign, Whited(e.name))
  }

  /** One of the entries from `j` up to `i` does. */
  ghost predicate Erased(ign: IgnoreList, layer: Layer, j: nat, i: nat, q: Path)
    requires i <= |layer|
  {
    exists k :: j <= k < i && Erases(ign, layer[k], q)
  }

  /** After the first `i` entries the path has what its entry put there. */
  ghost predicate Stands(ign: IgnoreList, layer: Layer, i: nat, q: Path)
    requires i <= |layer|
  {
    exists j :: 0 <= j < i && layer[j].name == q && !layer[j].body.SpecialBody? && !Erased(ign, layer, j, i, q)
  }

  /** The directories that hold the name of the entry have not been taken away since they were written. */
  ghost predicate SteadyAt(ign: IgnoreList, layer: Layer, i: nat)
    requires i < |layer|
  {
    forall j :: 0 <= j < i && layer[j].name < layer[i].name ==> !Erased(ign, layer, j, i, layer[j].name)
  }

  /** No file is put into a directory that extraction has taken away. */
  ghost predicate Steady(ign: IgnoreList, layer: Layer) {
    forall i :: 0 <= i < |layer| && !IsMarker(layer[i].name) ==> SteadyAt(ign, layer, i)
  }

  /** What extraction without markers never makes: pipes, devices, sockets, and files with a marker's name. */
  ghost predicate Skipped(d: Disk, p: Path) {
    p in d.nodes && (d.nodes[p].Special? || IsMarker(p))
  }

  /** The entry links a file to another name of it that extraction skips. */
  ghost predicate LinksSkipped(d: Disk, e: TarEntry) {
    !IsMarker(e.name) && e.body.HardlinkBody? && Skipped(d, e.body.original)
  }

  /** What a link entry finds: a skipped original in the old tree, any other one where its entry put it. */
  ghost predicate LinkFound(ign: IgnoreList, a: Nodes, d: Disk, layer: Layer, i: nat)
    requires i < |layer|
  {
    !IsMarker(layer[i].name) && layer[i].body.HardlinkBody? ==>
      var o := layer[i].body.original;
      if Skipped(d, o) then o in a && !a[o].Dir? && !Erased(ign, layer, 0, i, o) else Stands(ign, layer, i, o)
  }

  ghost predicate LinksFound(ign: IgnoreList, a: Nodes, d: Disk, layer: Layer, i: nat)
    requires i <= |layer|
  {
    forall j :: 0 <= j < i ==> LinkFound(ign, a, d, layer, j)
  }

  /** The path whose old node a path shows after the first `i` entries, if an entry links it to one that is skipped. */
  ghost function LinkedFrom(d: Disk, layer: Layer, i: nat, q: Path): Path
    requires i <= |layer|
  {
    if i == 0 then q
    else if layer[i - 1].name == q && LinksSkipped(d, layer[i - 1]) then layer[i - 1].body.original
    else LinkedFrom(d, layer, i - 1, q)
  }

  /** Whatever extraction skips, or links to what it skips, was in the old tree as it is on the disk. */
  ghost predicate SkippedBack(ign: IgnoreList, a: Nodes, d: Disk, layer: Layer) {
    forall q :: q in d.nodes && !Hidden(ign, q) && (d.nodes[q].Special? || LinkedFrom(d, layer, |layer|, q) != q) ==>
      At(a, LinkedFrom(d, layer, |layer|, q)) == Some(d.nodes[q])
  }

  /** Whatever of the disk a marker takes away is put back by a later entry. */
  ghost predicate NothingErased(ign: IgnoreList, d: Disk, layer: Layer) {
    forall q :: q in d.nodes && !Hidden(ign, q) && Erased(ign, layer, 0, |layer|, q) ==> Stands(ign, layer, |layer|, q)
  }

  /** No deleted path holds an ignore entry, unless its directory is gone as well. */
  ghost predicate NothingHeldBack(ign: IgnoreList, a: Nodes, b: Nodes) {
    forall w :: w in a && w !in b && !Hidden(ign, w) && w != [] && IsDir(b, Parent(w)) ==> !HoldsIgnored(ign, w)
  }

  // ---------------------------------------------------------------------------------------------
  // Conditions on the disk alone
  // ---------------------------------------------------------------------------------------------

  /** As a whiteout the marker file would take nothing away that is on the disk. */
  ghost predicate Harmless(ign: IgnoreList, nodes: Nodes, p: Path) {
    IsMarker(p) ==> Whited(p) !in nodes || Ignored(ign, Whited(p)) || HoldsIgnored(ign, Whited(p))
  }

  /** No marker file among the entries would. */
  ghost predicate MarkersHarmless(ign: IgnoreList, d: Disk, layer: Layer) {
    forall i :: 0 <= i < |layer| ==> Harmless(ign, d.nodes, layer[i].name)
  }

  /** No visible file is another name of a marker file. */
  ghost predicate MarkersUnlinked(ign: IgnoreList, d: Disk) {
    forall p, q :: p in d.ino && q in d.ino && IsMarker(p) && !Hidden(ign, q) ==> d.ino[p] != d.ino[q]
  }

  /** Pipes, devices and sockets are in the new tree only where they were before. */
  ghost predicate NoNewSpecial(ign: IgnoreList, a: Nodes, b: Nodes) {
    forall q :: q in b && !Hidden(ign, q) && b[q].Special? ==> At(a, q) == Some(b[q])
  }

  /** What is the same kind of object in both trees, and so at any time on the way from one to the other. */
  ghost function Lasting(ign: IgnoreList, a: Nodes, b: Nodes): Nodes {
    map q | q in a && q in b && !Hidden(ign, q) && SameKind(a[q], b[q]) :: b[q]
  }

  /** A link that became a directory leads, over what lasts, to a file that lasts. */
  ghost predicate LinksYield(ign: IgnoreList, a: Nodes, b: Nodes) {
    forall p :: p in a && a[p].Symlink? && !Hidden(ign, p) && IsDir(b, p) ==>
      GivesWay(Lasting(ign, a, b)[p := a[p]], p)
  }
}

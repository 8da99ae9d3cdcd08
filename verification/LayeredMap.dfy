/** The record of what is in the image: one layer of additions and deletions per snapshot. */
module LayeredMaps {
  import opened Options
  import opened Paths
  import opened Changesets

  type Hashes = map<Path, string>

  /** One layer on top of an image: its additions first, then its deletions. */
  function Merge(image: Hashes, add: Hashes, del: set<Path>): Hashes {
    (image + add) - del
  }

  /** The image that a stack of layers stands for. */
  function Fold(adds: seq<Hashes>, deletes: seq<set<Path>>): Hashes
    requires |adds| == |deletes|
  {
    if adds == [] then map[]
    else
      var n := |adds| - 1;
      Merge(Fold(adds[..n], deletes[..n]), adds[n], deletes[n])
  }

  /** The last layer that mentions the path, if any does. */
  ghost function LastMention(adds: seq<Hashes>, deletes: seq<set<Path>>, p: Path): Option<nat>
    requires |adds| == |deletes|
  {
    if adds == [] then None
    else
      var n := |adds| - 1;
      if p in adds[n] || p in deletes[n] then Some(n) else LastMention(adds[..n], deletes[..n], p)
  }

  /** Only the last layer that mentions a path counts, and there a deletion beats an addition. */
  lemma {:induction false} FoldIsLastMention(adds: seq<Hashes>, deletes: seq<set<Path>>, p: Path)
    requires |adds| == |deletes|
    ensures match LastMention(adds, deletes, p)
      case None => p !in Fold(adds, deletes)
      case Some(k) =>
        && k < |adds|
        && (forall j :: k < j < |adds| ==> p !in adds[j] && p !in deletes[j])
        && (p in Fold(adds, deletes) <==> p !in deletes[k])
        && (p !in deletes[k] ==> p in adds[k] && Fold(adds, deletes)[p] == adds[k][p])
  {
    if adds != [] {
      var n := |adds| - 1;
      FoldIsLastMention(adds[..n], deletes[..n], p);
    }
  }

  lemma MergeAdd(image: Hashes, add: Hashes, del: set<Path>, s: Path, h: string)
    ensures Merge(image, add[s := h], del)
         == if s in del then Merge(image, add, del) else Merge(image, add, del)[s := h]
  {
    assert image + add[s := h] == (image + add)[s := h];
  }

  class LayeredMap {
    var adds: seq<Hashes>
    var deletes: seq<set<Path>>
    var currentImage: Hashes
    var isCurrentImageValid: bool
    var layerHashCache: Hashes

    /**
     * The stored image is that of all layers but the last, and a true flag means that the last
     * layer is empty, so that the stored image is the whole one.
     */
    ghost predicate Valid()
      reads this
    {
      && |adds| == |deletes|
      && if adds == [] then currentImage == map[]
         else
           var n := |adds| - 1;
           && currentImage == Fold(adds[..n], deletes[..n])
           && (isCurrentImageValid ==> adds[n] == map[] && deletes[n] == {})
    }

    ghost function Image(): Hashes
      reads this
      requires Valid()
    {
      Fold(adds, deletes)
    }

    /** `NewLayeredMap`. */
    constructor ()
      ensures Valid() && Image() == map[] && adds == [] && layerHashCache == map[]
    {
      adds, deletes, currentImage := [], [], map[];
      isCurrentImageValid := false;
      layerHashCache := map[];
    }

    /** `getCurrentImage`: merges the last layer onto a copy of the stored image, unless it is current. */
    method GetCurrentImage() returns (image: Hashes)
      requires Valid()
      ensures image == Image()
    {
      if isCurrentImageValid || |adds| == 0 {
        if |adds| != 0 {
          assert Merge(currentImage, map[], {}) == currentImage;
        }
        return currentImage;
      }
      image := currentImage;
      var addedFiles, deletedFiles := adds[|adds| - 1], deletes[|deletes| - 1];
      var todo := addedFiles.Keys;
      while todo != {}
        invariant todo <= addedFiles.Keys
        invariant image == currentImage + (addedFiles - todo)
      {
        var add :| add in todo;
        image, todo := image[add := addedFiles[add]], todo - {add};
      }
      assert addedFiles - {} == addedFiles;
      var gone := deletedFiles;
      while gone != {}
        invariant gone <= deletedFiles
        invariant image == (currentImage + addedFiles) - (deletedFiles - gone)
      {
        var del :| del in gone;
        image, gone := image - {del}, gone - {del};
      }
    }

    /** `updateCurrentImage`. */
    method UpdateCurrentImage()
      requires Valid()
      modifies this`currentImage, this`isCurrentImageValid
      ensures currentImage == old(Image()) && isCurrentImageValid
    {
      if isCurrentImageValid {
        if |adds| != 0 {
          assert Merge(currentImage, map[], {}) == currentImage;
        }
        return;
      }
      currentImage := GetCurrentImage();
      isCurrentImageValid := true;
    }

    /** `Snapshot`: opens an empty layer on top of the image so far. */
    method Snapshot()
      requires Valid()
      modifies this
      ensures Valid() && Image() == old(Image()) && currentImage == old(Image())
      ensures adds == old(adds) + [map[]] && deletes == old(deletes) + [{}]
      ensures layerHashCache == map[]
    {
      UpdateCurrentImage();
      adds := adds + [map[]];
      deletes := deletes + [{}];
      layerHashCache := map[];
      assert adds[..|adds| - 1] == old(adds) && deletes[..|deletes| - 1] == old(deletes);
      assert Merge(currentImage, map[], {}) == currentImage;
    }

    /** `AddDelete`: the path is gone from the image, whatever else the layer says of it. */
    method AddDelete(s: Path)
      requires Valid() && adds != []
      modifies this`isCurrentImageValid, this`deletes
      ensures Valid() && Image() == old(Image()) - {s}
      ensures |deletes| == old(|deletes|) && deletes[..|deletes| - 1] == old(deletes[..|deletes| - 1])
      ensures deletes[|deletes| - 1] == old(deletes[|deletes| - 1]) + {s}
    {
      isCurrentImageValid := false;
      var n := |deletes| - 1;
      deletes := deletes[n := deletes[n] + {s}];
      assert Merge(currentImage, adds[n], deletes[n]) == Merge(currentImage, adds[n], old(deletes[n])) - {s};
    }

    /**
     * `Add`: records the hash of the path, unless the hasher fails; one that this layer has already
     * computed is not computed again.
     */
    method Add(d: Disk, s: Path) returns (ok: bool)
      requires Valid() && adds != []
      modifies this`isCurrentImageValid, this`adds
      ensures Valid() && |adds| == old(|adds|)
      ensures ok <==> s in layerHashCache || s in d.digest
      ensures !ok ==> adds == old(adds)
      ensures ok && s !in deletes[|deletes| - 1] ==>
                Image() == old(Image())[s := if s in layerHashCache then layerHashCache[s] else d.digest[s]]
      ensures ok && s in deletes[|deletes| - 1] ==> Image() == old(Image())
    {
      isCurrentImageValid := false;
      var n := |adds| - 1;
      var newV;
      if s in layerHashCache {
        newV := layerHashCache[s];
      } else if s in d.digest {
        newV := d.digest[s];
      } else {
        return false;
      }
      MergeAdd(currentImage, adds[n], deletes[n], s, newV);
      adds := adds[n := adds[n][s := newV]];
      assert adds[..n] == old(adds[..n]);
      ok := true;
    }

    /** `CheckFileChange`: compares with the stored image and remembers the hash. */
    method CheckFileChange(d: Disk, s: Path) returns (ok: bool, changed: bool)
      modifies this`layerHashCache
      ensures ok <==> s in d.digest
      ensures ok ==> layerHashCache == old(layerHashCache)[s := d.digest[s]]
      ensures !ok ==> layerHashCache == old(layerHashCache)
      ensures ok ==> (changed <==> !(s in currentImage && currentImage[s] == d.digest[s]))
    {
      if s !in d.digest {
        return false, false;
      }
      var newV := d.digest[s];
      layerHashCache := layerHashCache[s := newV];
      if s in currentImage && currentImage[s] == newV {
        return true, false;
      }
      return true, true;
    }

    /** `GetCurrentPaths`. */
    method GetCurrentPaths() returns (paths: set<Path>)
      requires Valid()
      ensures paths == Image().Keys
    {
      var current := GetCurrentImage();
      paths := current.Keys;
    }
  }
}

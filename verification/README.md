# Verification of kaniko's layer machinery

kaniko builds an image without a daemon: it runs each command of a Dockerfile stage on the root file
system, compares the tree with what it looked like before, and writes the difference as a tar layer.
This project models four parts of it in Dafny and proves what they are for.

**Snapshots and layers.** `Disks`, `Extraction`, `ExtractionSteps` model a file system tree with
symbolic links, inodes and the path lookups of the kernel and of the Go library, and extraction of a
layer onto it. `LayeredMaps`, `Walk`, `Resolve`, `TarWriter`, `Snapshotters` model the record of
hashes, the walk, the resolution of listed files and the writing of a layer. `Changesets`,
`LayerMeaning` and `RoundTrip` say what a layer means after the OCI Image Format Specification ("Image
Layer Filesystem Changeset", sections "Whiteouts" and "Applying Changesets"), and prove that extraction
does what the layer means and that a snapshot's layer means the new tree. The main result is
`RoundTrip.ApplyUndoesDiff`, an equivalence; `HardLinks` adds inodes, `LinkLimits` shows the
side conditions to be needed, and `StageRuns` carries the result over every sequence of commands.
`IgnoredPaths` says what becomes of the paths that layers are to leave alone. Paths are visible if they are not ignored and no component has a whiteout marker's name; the results
are about what is visible.

**The layer cache.** `CompositeKeys` models the key list, `StageBuilders` the commands with the flags
that the two passes of the stage builder consult, and `Builders` the passes themselves. The effects of
commands, the hash and the two layer operations are parameters, so the results hold for all of them.
Main results: both passes compute the same keys; a build with any cache content gives the config and
the flattened image of a build without one; and this holds for every build of every sequence of
builds that share a cache, starting from an empty one (`StageBuilders.EveryBuildRight`).
`StageBuilders.KeysIdentifyStates` reduces the assumption made there, that equal keys mean equal
states, to one about single commands. `LayerWorlds` puts the two parts together: with trees for file
systems and extraction of layers for the layer operation, the snapshots that `StageBuilders` takes for
granted are what the round trip proves.

**Dead stages.** `Dockerfiles` and `KanikoStages` model which stages are built. A stage denotes a term
(its base, its steps, the images it copies from), and pruning keeps the term of the target.

**Paths.** `Dedup` is the path trie on the heap, `DeleteFs` the deletion of a file system around
ignored paths, `TarNames` the text of tar names, `Resolve` the two searches for symbolic links.

Paths are sequences of components, except in `PathStrings`, `TarNames` and `Dedup`, which work on
text. The root directory is "/" and the working directory of the process is "/"
(`cmd/executor/cmd/root.go:196`). `SortStrings`, `SortBy` stand for the library's sort, and their
contracts say what the code relies on.

## What turned out not to hold

The code is modelled as it is. Where a promise fails there is a lemma with an input, an equivalence that
names the condition, or a contract that says what happens in either case.

- A file with a marker's name is written to a layer like any other, and read back as a deletion. A cached
  layer is extracted with its markers (`pkg/commands/run.go:264-270`), so that a cached `RUN rm /s/foo`
  leaves `/s/.wh.foo` on the disk. After a COPY has put `/s/foo` back, an uncached `RUN chown -R` of `/s`
  changes the owner of the marker file, the layer has an entry for it, and extraction deletes `/s/foo`:
  `LinkLimits.MarkerFileErases`. `RoundTrip.ApplyUndoesDiff` says that the new tree comes back only if
  everything such entries take away is written again later in the layer, and
  `RoundTrip.ErasedIsLost` that it is gone otherwise. `RoundTrip.HarmlessUndoesDiff` and the steps of
  `StageRuns` ask that no marker file in the change has its path on the new disk; marker files may
  otherwise be made, changed and deleted.
- Pipes and devices are written to the layer and skipped on extraction, and so are files with a marker's
  name. If the first of two names of a file is skipped, the second is written as a link to it, and
  extraction of the whole layer fails: `LinkLimits.LinkedPipesFail`, `LinkLimits.LinkedMarkerFails`.
  `RoundTrip.ApplyUndoesDiff` says exactly when extraction succeeds (each link finds its original), and
  when it gives the new tree back.
- An ignored path is left alone as long as extraction writes each entry where its name says:
  `IgnoredPaths.IgnoredStay`. A name that leads through a link does not, since the ignore list is asked
  about the name only: with `/etc/hosts` ignored and `/l` a link to `/etc`, an entry `l/hosts` replaces
  the file: `IgnoredPaths.NotStraight`.
- For a path that does not exist, the bottom-up search for a link fails and the top-down one does not, if a
  link lies above the path: `Resolve.SearchesSucceed`.
- A whiteout above an ignore entry is not applied. This is another side of the same equivalence, and
  `RoundTrip.HeldBackStays` says that nothing else clears the path.
- A symbolic link to a directory that became a directory is still a link after extraction, because
  `os.Stat` follows it: `LinkLimits.LinkToDirectorySurvives`. `LinkLimits.DirEntryExact` says exactly
  when a directory entry takes effect. The condition of the round trip (`LinksGiveWay`) says the same of
  each directory entry, on the visible part of the tree that the entries before it leave.
- A cached layer that is extracted after the initial snapshot does not enter the record. A RUN that then
  puts back the version on record has no layer, and the image keeps the cached one:
  `StageRuns.StageRun.RestoredIsMissed`. `StageBuilders.CachedAfterInitial` says when this order comes up.
- The joined text of a key does not determine the key list: `CompositeKeys.JoinedKeysCollide`. It does
  exactly if lists with the same text have the same dashes part by part: `CompositeKeys.JoinExact`.
- A RUN that reports its files (`--use-new-run`) and touches none has no layer, so that its key is neither
  served nor pushed: `Builders.IdleRunIsNeverPushed`. `Builders.ServedOrPushed` says exactly which
  cacheable commands push.
- WORKDIR on a disk that was never unpacked makes a directory the base image may already have:
  `StageBuilders.WorkdirOnBareDisk`. The flattened image is level with the uncached run all along if and
  only if what each WORKDIR appends there takes one uncached state to the next: `StageBuilders.LayersExact`.
- A COPY without a file to list returns a nil list, whatever the comment at `pkg/commands/copy.go:131`
  says about an empty one, and a nil list asks for a snapshot of everything. `StageRuns` has a step for it.
- `COPY --from` with other letter case than the stage's name, by index to an unnamed stage, or by index
  behind a dropped stage changes its meaning when stages are pruned: `KanikoStages.MixedCaseIsLost`,
  `UnnamedIsLost`, `IndexIsNotRenumbered`. `Dockerfiles.RefsExact` says that a reference leads to the
  same stage if and only if that is kept and, where the reference is by index, has not moved. A stage that
  nothing needs can be kept without its base: `KanikoStages.KeptWithoutItsBase`.
- An error of the hasher ends the walk without notice, since the walk's error is dropped
  (`pkg/util/fs_util.go:1321`). What exists but was not seen by then stays among the deleted paths:
  `Snapshotters.UnhashableDirectory`. `Snapshotters.WalkFS` says when this happens and what is left; the
  snapshot results require that what is scanned can be hashed.
- `ResolvePaths` returns early and without an error when an evaluation fails for another reason than
  absence; its contract covers both cases.
- `CheckCleanedPathAgainstProvidedIgnoreList` ignores its list argument and uses the global list; the
  model has one list.

## Model

| member | source | states |
|---|---|---|
| `Paths.ParentDirectories` | pkg/util/fs_util.go:626-641 | climbing from a path yields every proper prefix, shortest first, and the root for itself |
| `Paths.WhiteoutName` | pkg/util/tar_util.go:174-187 | a marker lies next to its path and decodes to exactly that path |
| `IgnoreLists.IgnoredExact` | pkg/util/fs_util.go:916-940 | a path is ignored if and only if an entry is at or above it |
| `IgnoreLists.HoldsIgnoredExact` | pkg/util/fs_util.go:348-356 | a path holds an ignore entry if and only if it is not the root and an entry is at or below it |
| `IgnoreLists.HiddenBelow` | pkg/util/fs_util.go:916-940 | what lies below an ignored or marked path is ignored or marked too |
| `Disks.StatLiteral` | pkg/util/fs_util.go:946-960 | a path without links among its ancestors stats and evaluates to itself |
| `Disks.LinkLeads` | pkg/filesystem/resolve.go:150-160 | a link leads from its own directory, or from the root if its text is absolute, along its text and then along the rest of the path, two dots climbing |
| `Disks.LoopIsBroken` | pkg/filesystem/resolve.go:66-75 | a link to itself is an error for everything behind it, however many links are followed |
| `Disks.NothingBehindFiles` | pkg/filesystem/resolve.go:66-75 | a path that leads through a file is an error, not a path that is missing |
| `Extraction.RootFs.GetFSFromLayers` | pkg/util/fs_util.go:221-307 | extraction in place succeeds exactly if every entry in order does, and leaves the folded result; else it stops at a failing entry, with everything before that extracted |
| `ExtractionSteps.ParentsMakeable` | pkg/util/fs_util.go:407-415 | below directories, making the parents of a path succeeds and adds exactly those that are missing |
| `IgnoredPaths.FileWritten` | pkg/util/fs_util.go:404-488 | a file or link below directories is written, with nothing left of what it replaces, the missing directories above it with mode 0755, and everything else as it was |
| `ExtractionSteps.BehindFileFails` | pkg/util/fs_util.go:285-299 | extraction fails at an entry for a path behind a file, and at the whiteout of one |
| `IgnoredPaths.PassedOver` | pkg/util/fs_util.go:399-402 | extraction of a layer is that of what is left without the entries that it passes over: ignored names, hard links to ignored originals, and whiteouts of paths that are ignored or hold an ignored one |
| `IgnoredPaths.IgnoredStay` | pkg/util/fs_util.go:281-288 | whatever the layer names, marker files kept or not, an ignored path is after extraction what it was, unless a file takes a name above it, and then it is gone |
| `IgnoredPaths.IgnoredStayThroughout` | pkg/util/fs_util.go:221-307 | the same for all layers of an image |
| `IgnoredPaths.NotStraight` | pkg/util/fs_util.go:399-402 | an entry whose name leads through a link and replaces an ignored file |
| `ExtractionSteps.Replaced` | pkg/util/fs_util.go:404-447 | a file or link takes its name, removes the subtree it replaces, gets an inode of its own, and nothing else changes |
| `ExtractionSteps.Linked` | pkg/util/fs_util.go:454-488 | a hard link entry ends with the node and the inode of its original, and nothing else changes |
| `ExtractionSteps.LinkResisted` | pkg/util/fs_util.go:454-488 | without an original, or with a directory for one, a hard link entry fails |
| `ExtractionSteps.DirMade` | pkg/util/fs_util.go:946-998 | where nothing resists, a directory entry puts that directory there and keeps the rest |
| `ExtractionSteps.WhitedOut` | pkg/util/fs_util.go:262-290 | a whiteout removes exactly the subtree of its path, and nothing if a directory above it is missing |
| `LinkLimits.DirEntryExact` | pkg/util/fs_util.go:946-998 | a directory entry makes a directory if and only if no link that resists has its name |
| `LinkLimits.LinkToDirectorySurvives` | pkg/util/fs_util.go:946-954 | a complete layer whose extraction does not give the new tree: a link to a directory became a directory |
| `LinkLimits.LinkToFileGivesWay` | pkg/util/fs_util.go:946-954 | the same with a link to a file meets every condition of the round trip, and the directory is there |
| `LinkLimits.LinkedPipesFail` | pkg/util/tar_util.go:206-224 | a complete layer with two names of one new pipe, whose extraction fails |
| `LinkLimits.LinkedMarkerFails` | pkg/util/fs_util.go:262-303 | the same for a regular file of which one name is a marker's, although the path of the marker is not there |
| `LinkLimits.MarkerFileErases` | pkg/util/fs_util.go:262-299 | a complete layer with a changed marker file whose path is on the disk: extraction succeeds and that path is gone |
| `LayerMeaning.LayerMeant` | pkg/util/fs_util.go:221-307 | extraction, marker files kept or not, gets through any number of entries exactly if each link finds its original, and then does, path by path, what the OCI rules say |
| `LayerMeaning.MarkerLeft` | pkg/util/fs_util.go:291-299 | after a whiteout that is applied, its marker file is there if and only if marker files are kept |
| `RoundTrip.LayerRespectsAgreement` | pkg/util/fs_util.go:282-299 | on trees that agree on visible paths extraction succeeds or fails alike, and they agree afterwards, whether or not marker files are kept, if those are files of their own and no link needs one |
| `RoundTrip.DeletedCleared` | pkg/snapshot/snapshot.go:219-255 | dropping redundant and impossible whiteouts loses nothing: some entry clears every deleted path that is not held back |
| `RoundTrip.HeldBackStays` | pkg/util/fs_util.go:281-284 | a deleted path that holds an ignore entry is cleared by no entry |
| `RoundTrip.BackIsFound` | pkg/util/fs_util.go:454-488 | if all that extraction skips comes back, and no marker file takes anything away, every link entry has found its original |
| `RoundTrip.KeptSkippedBack` | pkg/util/fs_util.go:379-508 | pipes, devices and sockets that are only where they were all come back, hard links among them included, if no visible file shares an inode with a marker file |
| `RoundTrip.ApplyUndoesDiff` | pkg/snapshot/snapshot.go:125-143 | extracting a complete layer onto the old tree succeeds if and only if each link finds its original, and gives the new tree on all visible paths if and only if, besides, what marker files take away is written again, what is skipped comes back, and no whiteout is held back |
| `RoundTrip.ErasedIsLost` | pkg/util/fs_util.go:262-290 | what an entry with a marker's name takes away, and no later entry writes, is gone after extraction |
| `RoundTrip.HarmlessUndoesDiff` | pkg/snapshot/snapshot.go:125-143 | with conditions on the two disks alone, extraction gives the new tree if no marker file in the layer has its path there |
| `HardLinks.HardLinksSurvive` | pkg/util/tar_util.go:206-224 | extraction fails exactly for want of an original, and restores the inode classes of all files and links that stand afterwards |
| `Changesets.BodyExact` | pkg/util/tar_util.go:97-122 | header and content tell the whole node, except whether something special is a socket |
| `TarWriter.Tar.constructor` | pkg/util/tar_util.go:45-51 | a new writer has no entries and knows no inodes |
| `TarWriter.Tar.CheckHardlink` | pkg/util/tar_util.go:206-224 | a second name of a shared inode links to the first, a first name is recorded |
| `TarWriter.Tar.AddFileToTar` | pkg/util/tar_util.go:79-140 | fails exactly on a missing path and then changes nothing; a socket adds nothing; else one true entry is appended |
| `TarWriter.Tar.Whiteout` | pkg/util/tar_util.go:174-187 | appends the marker of the path |
| `TarWriter.Tar.AddParentDirectories` | pkg/snapshot/snapshot.go:287-299 | afterwards every ancestor is in the layer before what comes next, and the layer is still faithful |
| `TarWriter.ParentPathIncludesNonDirectory` | pkg/snapshot/snapshot.go:273-285 | with the parent present, the whiteout is skipped exactly if the parent is no directory |
| `TarWriter.WriteWhiteouts` | pkg/snapshot/snapshot.go:238-256 | the whiteouts of all deleted paths whose directory is still one are written, ancestors first, and nothing else; if no path is listed twice, no name is repeated |
| `TarWriter.WriteToTar` | pkg/snapshot/snapshot.go:233-271 | the layer is faithful to the disk, covers nothing but what was listed, starts with the whiteouts, and writes every listed file that is no socket and every whiteout; it is a function of the disk and the two lists; if no whiteout is listed twice, two entries share a name only if they are a marker file and a whiteout called like it |
| `LayeredMaps.FoldIsLastMention` | pkg/snapshot/layered_map.go:87-115 | the image has for each path what the last layer that mentions it says, deletion winning within a layer |
| `LayeredMaps.LayeredMap.constructor` | pkg/snapshot/layered_map.go:40-49 | a new map is valid and its image is empty |
| `LayeredMaps.LayeredMap.GetCurrentImage` | pkg/snapshot/layered_map.go:87-115 | the stored image with the last layer merged, or alone if flagged as current, is the fold of all layers |
| `LayeredMaps.LayeredMap.UpdateCurrentImage` | pkg/snapshot/layered_map.go:117-124 | stores the fold of all layers and flags it as current |
| `LayeredMaps.LayeredMap.Snapshot` | pkg/snapshot/layered_map.go:51-59 | opens an empty layer, keeps the image and the invariant of the flag, forgets cached hashes |
| `LayeredMaps.LayeredMap.AddDelete` | pkg/snapshot/layered_map.go:145-150 | removes exactly that path from the image |
| `LayeredMaps.LayeredMap.Add` | pkg/snapshot/layered_map.go:153-172 | records the hash, the one already computed in this layer if there is one, unless the hasher fails or the layer deletes the path |
| `LayeredMaps.LayeredMap.CheckFileChange` | pkg/snapshot/layered_map.go:176-198 | tells whether the hash differs from the stored image, and remembers it; only a failing hasher is an error |
| `LayeredMaps.LayeredMap.GetCurrentPaths` | pkg/snapshot/layered_map.go:134-141 | the paths of the fold of all layers |
| `Resolve.ResolveSymlinkAncestor` | pkg/filesystem/resolve.go:128-169 | the loop ends and computes the bottom-up search |
| `Resolve.ResolveSymlinkAncestorInRoot` | pkg/filesystem/resolve.go:171-196 | the loop computes the top-down search |
| `Resolve.SearchesAgree` | pkg/filesystem/resolve.go:128-196 | whenever the bottom-up search succeeds, both return the shortest prefix that is a link, or the path if there is none, and no other prefix is that |
| `Resolve.SearchesSucceed` | pkg/filesystem/resolve.go:128-196 | the bottom-up search succeeds if and only if the path exists, the top-down one if and only if it does or a link lies on the way |
| `Resolve.FilesWithParentDirs` | pkg/filesystem/resolve.go:102-121 | exactly the paths at or above a listed one, each once |
| `Resolve.ResolvePaths` | pkg/filesystem/resolve.go:38-98 | without repeats, exactly the parent-closure of links and real targets; after a failing evaluation, exactly what came before it |
| `Walk.LookAt` | pkg/util/fs_util.go:1309-1317 | the path is taken off the deleted ones and listed if changed; exactly a failing hasher ends the walk, before the path is listed |
| `Walk.Visit` | pkg/util/fs_util.go:1294-1328 | a walk reports exactly the changed paths outside ignored ones and takes off what it meets; it ends early exactly if something cannot be hashed, and then reports what it saw, everything above that path and nothing below it |
| `Snapshotters.WalkFS` | pkg/util/fs_util.go:1260-1292 | what is left of the existing paths is exactly what the disk no longer shows, or, if something cannot be hashed, also what the aborted walk did not come to |
| `Snapshotters.UnhashableDirectory` | pkg/util/fs_util.go:1317-1325 | a file that is there and on record counts as deleted, because the directory above it cannot be hashed |
| `Snapshotters.RemoveObsoleteWhiteouts` | pkg/snapshot/snapshot.go:219-231 | keeps exactly the deleted paths whose directory was not deleted, each once |
| `Snapshotters.DirectoriesFirst` | pkg/snapshot/snapshot.go:212-213 | in the order of their names, a directory comes before everything in it |
| `Snapshotters.ScanReproducible` | pkg/snapshot/snapshot.go:152-216 | a snapshot of everything is reproducible: the layer is a function of the record and the disk, whatever order the walk and the sets come in |
| `Snapshotters.RecordExact` | pkg/snapshot/snapshot.go:186-204 | whatever was on record, recording what a scan describes and dropping what is gone leaves exactly the hashes of the disk |
| `Snapshotters.ScanIsComplete` | pkg/snapshot/snapshot.go:152-216 | a scan's layer accounts for every difference from the disk on record, if nothing below a marker's name takes part |
| `Snapshotters.RescanIsEmpty` | pkg/snapshot/snapshot.go:152-216 | a scan of a disk that is exactly on record adds and whites out nothing |
| `Snapshotters.Snapshotter.constructor` | pkg/snapshot/snapshot.go:48-50 | a snapshotter works on the given record and ignore list |
| `Snapshotters.Snapshotter.Init` | pkg/snapshot/snapshot.go:53-57 | the record becomes exactly that of the disk, if that can be hashed |
| `Snapshotters.Snapshotter.ScanFullFilesystem` | pkg/snapshot/snapshot.go:152-216 | if the disk can be hashed, the record becomes exact, and the sorted results are exactly what the changed paths lead to with all directories above, ignored paths aside, and the topmost deletions, each once |
| `Snapshotters.Snapshotter.TakeSnapshotFS` | pkg/snapshot/snapshot.go:125-143 | if the disk can be hashed, no changed link evaluates with an error and nothing below a marker's name takes part, the layer is a complete account for any old disk on record, tells everything that goes with a change and nothing else, repeats no name, and is harmless if the changed marker files are; an unchanged disk gives an empty layer |
| `Snapshotters.Snapshotter.TakeSnapshot` | pkg/snapshot/snapshot.go:66-121 | the layer has exactly what the listed files lead to and, on request, all deletions, both in the order of names; without files there is no layer and no change of the record |
| `Snapshotters.Snapshotter.ListedReproducible` | pkg/snapshot/snapshot.go:66-121 | so is the layer of listed files, whatever the order of the list |
| `StageRuns.StageRun.constructor` | pkg/executor/build.go:89-152 | a stage starts level with its base image |
| `StageRuns.StageRun.SaveSnapshotToImage` | pkg/executor/build.go:474-500 | an empty tar adds no layer |
| `StageRuns.StageRun.Run` | pkg/executor/build.go:381-428 | after RUN, base and layers flatten to the disk again, if the change can be snapshotted, holds no ignore entry back, adds no pipe or device, leaves links that became directories leading to files, gives no visible file a marker for another name, and changes no marker file whose path is there |
| `StageRuns.StageRun.CopyFiles` | pkg/executor/build.go:441-455 | the same after COPY, ADD or WORKDIR that list what they touch and delete nothing, with or without an initial snapshot; the layer has only files that the list leads to, and no whiteouts |
| `StageRuns.StageRun.CopyNothing` | pkg/executor/build.go:445-446 | the same after a command with a nil list, if no marker file on the disk has its path there or another visible name |
| `StageRuns.StageRun.UseCached` | pkg/executor/build.go:400-405 | the same after a cached layer of some snapshot is extracted, marker files and all, before the initial snapshot |
| `StageRuns.StageRun.RestoredIsMissed` | pkg/executor/build.go:381-428 | after the initial snapshot, a RUN that puts back what a cached layer changed adds no layer, and the image does not flatten to the disk |
| `StageRuns.StageRun.Metadata` | pkg/executor/build.go:457-472 | metadata commands keep the disk, the image and the record's meaning |
| `StageRuns.FilesRunOk` | pkg/snapshot/snapshot.go:125-143 | between any two readable trees of directories and files, RUN meets all conditions if no whiteout is held back, hashes do not collide, and no new or changed marker file has its path there or another visible name |
| `StageRuns.StageRun.Build` | pkg/executor/build.go:351-432 | after every sequence of steps that meet these conditions, base and appended layers flatten to the current file system |
| `Sorting.SortStrings` | pkg/executor/build.go:204-207 | the sorted list, a function of the list |
| `Sorting.SortedCanonical` | pkg/executor/build.go:204-207 | lists with the same elements, repeats included, sort to the same list |
| `Sorting.SortedExact` | pkg/executor/build.go:204-207 | two lists sort to the same list if and only if they have the same elements, repeats included |
| `Sorting.StrLeExact` | pkg/executor/build.go:204-207 | the order is that of the first characters that differ, a prefix coming first |
| `CompositeKeys.DecodeEncode` | pkg/executor/build.go:208-221 | environments, commands and file hashes can be read back from the key list |
| `CompositeKeys.KeyListInjective` | pkg/executor/build.go:208-221 | equal key lists come from the same environments, commands and file hashes |
| `CompositeKeys.JoinedEqual` | pkg/executor/composite_cache.go:49-51 | two lists have the same joined text exactly if they leave the same pieces between dashes |
| `CompositeKeys.JoinExact` | pkg/executor/composite_cache.go:49-51 | lists with the same joined text are equal exactly if they have the same number of dashes, part by part |
| `CompositeKeys.JoinedKeysCollide` | pkg/executor/composite_cache.go:49-51 | two different plausible key lists with the same joined text |
| `StageBuilders.ExecView` | pkg/executor/build.go:281-287 | running any command moves environment and args exactly as the first pass does |
| `StageBuilders.ExecConfig` | pkg/executor/build.go:390-393 | metadata commands change environment, config and args and leave the disk alone; WORKDIR changes the config and the disk, every other command the disk only |
| `StageBuilders.NoEmptyLayers` | pkg/executor/build.go:494-497 | no layer of a command that was run is empty |
| `StageBuilders.KeysAgree` | pkg/executor/build.go:359-369 | at every command the second pass has the key list of the first, though commands were swapped and all are run |
| `StageBuilders.KeysCanonical` | pkg/executor/build.go:201-228 | the order of args and envs does not show in a key |
| `StageBuilders.FileKeysExact` | pkg/executor/composite_cache.go:58-92 | the hashes of the files one after the other, leaving out excluded ones |
| `StageBuilders.BlocksExact` | pkg/executor/build.go:208-226 | blocks of two commands of one kind are equal if and only if the texts are, for RUN the environments up to order, and for COPY and ADD the file hashes; nothing else shows in a key |
| `StageBuilders.EqualKeysSameInputs` | pkg/executor/build.go:201-228 | in stages with equal key lists, each RUN saw the same environment and args, and each COPY and ADD read files with the same hashes |
| `StageBuilders.HitsFormPrefix` | pkg/executor/build.go:240-283 | a cacheable command before a hit is a hit |
| `StageBuilders.CachedAfterInitial` | pkg/executor/build.go:381-388 | a cached command follows the initial snapshot if and only if an uncacheable RUN precedes a hit |
| `StageBuilders.StatesAgree` | pkg/executor/build.go:351-432 | with right layers, the swapped commands go through the states of the original ones |
| `StageBuilders.CacheRefinement` | pkg/executor/build.go:295-432 | whichever keys are cached, config and flattened image are those of a build without cache, if each WORKDIR is right where it runs |
| `StageBuilders.LayersExact` | pkg/executor/build.go:309-432 | the flattened image is level with the uncached run before each command and at the end if and only if each WORKDIR, run where it is run, appends what takes one uncached state to the next |
| `StageBuilders.GroundedIsLevel` | pkg/executor/build.go:309-336 | a stage that is unpacked, or has no WORKDIR, meets that condition |
| `StageBuilders.PushRight` | pkg/executor/build.go:421-427 | a pushed layer is right for every stage that has its key |
| `StageBuilders.PushIsReference` | pkg/executor/build.go:412-427 | a command that pushes ran on the state of the uncached build, and pushes under the key it was looked up with |
| `StageBuilders.PushesKeepRight` | pkg/executor/build.go:421-427 | the pushes of a build keep the cache right for it and for any other stage |
| `StageBuilders.EveryBuildRight` | pkg/executor/build.go:295-432 | over any sequence of builds sharing a cache that starts right, each whose WORKDIRs are right gives the result of a build without cache |
| `StageBuilders.ToldApartExact` | pkg/executor/composite_cache.go:49-56 | with a hash without collisions, key lists are told apart exactly if those with equal keys have the same dashes |
| `StageBuilders.KeysIdentifyStates` | pkg/executor/build.go:201-228 | if key lists are told apart and each command is determined by its block and state, equal keys mean equal states before and after |
| `StageBuilders.WorkdirOnBareDisk` | pkg/executor/build.go:309-323 | a stage of WORKDIR alone whose flattened image differs from the reference |
| `StageBuilders.SecondBuildIsServed` | pkg/executor/build.go:240-283 | an instance of the history theorem: a first build that pushes its layer, and a second that is served it |
| `LayerWorlds.AppliedIsNew` | pkg/util/fs_util.go:221-307 | on visible trees, extraction of a layer that accounts for a new disk gives what is visible of that disk |
| `LayerWorlds.DisksMakeSnapshotsRight` | pkg/executor/build.go:390-431 | if every command leaves a disk that its layer accounts for, the snapshots are right as the cache protocol needs them |
| `LayerWorlds.CachedStageOfLayers` | pkg/executor/build.go:295-432 | over real layers, a stage built with any right cache and right WORKDIRs has the config, and flattens to the visible tree, of one built without |
| `Builders.ServedOrPushed` | pkg/executor/build.go:240-283 | each cacheable command is served, or else pushed exactly once and under its key if and only if its file list is not empty, all served ones before all pushed ones |
| `Builders.IdleRunIsNeverPushed` | pkg/executor/push.go:372-375 | a cacheable command with an empty file list that is neither served nor pushed |
| `Builders.CompositeCache.constructor` | pkg/executor/composite_cache.go:31-36 | a new key starts from the given list |
| `Builders.CompositeCache.AddKey` | pkg/executor/composite_cache.go:44-46 | appends the keys in order |
| `Builders.CompositeCache.AddPath` | pkg/executor/composite_cache.go:58-92 | appends the hash of a path, or nothing for an excluded one |
| `Builders.CompositeCache.AddPaths` | pkg/executor/build.go:222-226 | appends the hashes of all files in order |
| `Builders.StageBuilder.PopulateCompositeKey` | pkg/executor/build.go:201-228 | a copy of the key grown by a decodable block: for RUN, cached or not, the sorted environment and args, then the command and the hashes of its files; the caller's key stays |
| `Builders.StageBuilder.OptimizeCommand` | pkg/executor/build.go:240-288 | one round: swaps on a hit, stops at a miss, runs metadata commands only |
| `Builders.StageBuilder.Optimize` | pkg/executor/build.go:230-293 | exactly the hits are swapped, the final key is that of the last command, and the args are restored |
| `Builders.StageBuilder.ExecuteCommand` | pkg/executor/build.go:390-393 | runs the command or extracts its cached layer, tells which files a command lists, and changes environment, config and args for metadata commands only, WORKDIR aside |
| `Builders.StageBuilder.SaveOutput` | pkg/executor/build.go:396-431 | appends the layer of the cache, or the new one unless that is empty or there is none, and pushes the new one if there is one and the flags say so |
| `Builders.StageBuilder.RunCommand` | pkg/executor/build.go:351-432 | one round of the second pass: key, state, layer, push and initial snapshot |
| `Builders.StageBuilder.RunCommands` | pkg/executor/build.go:351-432 | layers, pushes, state and the initial snapshot after the second pass |
| `Builders.StageBuilder.Build` | pkg/executor/build.go:295-439 | image, pushes and config as specified, run on the base image's file system if another stage copies from this one or some RUN, COPY or ADD is not cached, and with a right cache those of a build without one; the final cache key is that of the last command |
| `Dockerfiles.LeftExact` | pkg/dockerfile/dockerfile.go:379-397 | what is left is in order, has every kept stage, and has the target at the new index |
| `Dockerfiles.NeededIsKept` | pkg/dockerfile/dockerfile.go:358-391 | the backward pass looks into every stage the target needs, and keeps it, if the names it marks, for names and for indices, are those of the stages meant |
| `Dockerfiles.KeptExactly` | pkg/dockerfile/dockerfile.go:358-391 | where names are unambiguous, a stage is kept if and only if the target needs it |
| `Dockerfiles.PrunesExact` | pkg/dockerfile/dockerfile.go:379-382 | stages are dropped if and only if there is a target, or the last stage copies from something or is built on the name of a stage before it |
| `Dockerfiles.LeftIsPruned` | pkg/dockerfile/dockerfile.go:383-397 | what is then left ends with the target, each stage before it has a name that some stage up to the target mentions, and where names are unambiguous it is exactly what the target needs |
| `Dockerfiles.RefsExact` | pkg/dockerfile/dockerfile.go:351-398 | in any selection of the stages, the references of a stage lead to the very same stages if and only if those are kept and, where referred to by index, not moved |
| `Dockerfiles.PickedMeaning` | pkg/dockerfile/dockerfile.go:73-86 | a needed stage denotes the same image in every selection where all that is needed refers to what stays |
| `Dockerfiles.PruningKeepsMeaning` | pkg/dockerfile/dockerfile.go:351-398 | if all that the target needs refers to what stays, the target denotes the same image and the new index names it |
| `Dockerfiles.ByNameStays` | pkg/dockerfile/dockerfile.go:351-398 | this is so if the stages that the target needs refer by name, or if nothing before the target is dropped |
| `Dockerfiles.PrefixMeaning` | pkg/dockerfile/dockerfile.go:303-305 | stopping at the target does not change what it denotes |
| `KanikoStages.TargetStage` | pkg/dockerfile/dockerfile.go:197-207 | the last stage without a target, else the first of that name in any case, else an error |
| `KanikoStages.BaseImageIndex` | pkg/dockerfile/dockerfile.go:73-86 | the first earlier stage with the lower-cased base name, or -1 if there is none |
| `KanikoStages.SaveStage` | pkg/dockerfile/dockerfile.go:228-244 | exactly if a later stage has that non-empty base name |
| `KanikoStages.SavedIffBase` | pkg/dockerfile/dockerfile.go:228-244 | with distinct names, saved stages are exactly those another stage is built on |
| `KanikoStages.MarkCopies` | pkg/dockerfile/dockerfile.go:361-372 | marks the names of all copy sources; fails exactly on an index no stage has |
| `KanikoStages.MarkStages` | pkg/dockerfile/dockerfile.go:358-378 | the backward loop computes the marks, or fails exactly if it meets a bad index |
| `KanikoStages.BadIndexExact` | pkg/dockerfile/dockerfile.go:358-378 | where names are unambiguous, the pass comes across an index that no stage has if and only if a stage that the target needs copies by one |
| `KanikoStages.KeepMarked` | pkg/dockerfile/dockerfile.go:383-391 | keeps the marked stages before the target in order |
| `KanikoStages.SkipUnusedStages` | pkg/dockerfile/dockerfile.go:351-398 | the stages left, the target at the new index, which of their references lead where they led, and the same meaning if all that is needed stays |
| `KanikoStages.Describe` | pkg/dockerfile/dockerfile.go:287-306 | every stage up to the target with its index and base; exactly the stages are saved that a later one names as its base; the last one alone is final |
| `KanikoStages.MakeKanikoStages` | pkg/dockerfile/dockerfile.go:276-308 | errors exactly for an unknown target or a bad index, where names are unambiguous one of a needed stage; else a well-made list that ends with the target, with its meaning if all that is needed stays: all stages up to the target, or, if stages are to be skipped and there is something to prune, only those with names that are mentioned, and exactly the needed ones where names are unambiguous |
| `KanikoStages.ResolveCrossStageCommands` | pkg/dockerfile/dockerfile.go:249-261 | replaces each copied-from name by the index of the last stage of that name so far |
| `KanikoStages.ResolveCrossStageInstructions` | pkg/executor/build.go:1041-1053 | every command is resolved against the names up to its own stage, and the map ends with the last index of each name |
| `KanikoStages.ResolvedIsSource` | pkg/executor/build.go:921-928 | after resolution the index names the earlier stage that was meant, and only then |
| `KanikoStages.MixedCaseIsLost` | pkg/dockerfile/dockerfile.go:364-371 | a copy in other letter case whose stage is dropped and whose meaning changes |
| `KanikoStages.UnnamedIsLost` | pkg/dockerfile/dockerfile.go:383-386 | a copy by index from an unnamed stage that is dropped |
| `KanikoStages.IndexIsNotRenumbered` | pkg/dockerfile/dockerfile.go:364-371 | a copy by index that points elsewhere after a stage before it is dropped |
| `KanikoStages.IndexStays` | pkg/dockerfile/dockerfile.go:364-371 | a copy by index that keeps its meaning although a stage is dropped |
| `KanikoStages.KeptWithoutItsBase` | pkg/dockerfile/dockerfile.go:387-390 | an unneeded stage kept for the name of an image, without the stage it is built on |
| `Dedup.PutStands` | pkg/executor/build.go:877-888 | putting a path in keeps the marked paths a cover of all paths so far |
| `Dedup.MinimalMarked` | pkg/executor/build.go:877-888 | the shortest marked paths are exactly the minimal ones of all that were put in |
| `Dedup.Trie.Insert` | pkg/executor/build.go:877-888 | the trie stays a tree, and its marked paths lose exactly what lies below the new one |
| `Dedup.Trie.Traverse` | pkg/executor/build.go:891-903 | collects exactly the marked paths that none above them hides, each once, in any order of the children |
| `Dedup.DeduplicatePaths` | pkg/executor/build.go:868-906 | exactly the inputs that no other input is above, each once, and every input has one at or above it |
| `PathStrings.SplitRooted` | pkg/executor/build.go:878-899 | splitting a path and walking down its parts gives the path back |
| `DeleteFs.ParentSurvives` | pkg/util/fs_util.go:349-356 | what survives keeps the directories it is in |
| `DeleteFs.SurvivesExact` | pkg/util/fs_util.go:312-337 | what survives is what is ignored or holds an ignored path, the root besides |
| `DeleteFs.FileSystem.Visit` | pkg/util/fs_util.go:312-337 | deletes the subtree of the path exactly if it neither survives nor holds anything that does |
| `DeleteFs.FileSystem.Walk` | pkg/util/fs_util.go:310-338 | below the path exactly the survivors are left, and the tree stays closed |
| `DeleteFs.FileSystem.DeleteFilesystem` | pkg/util/fs_util.go:310-338 | exactly the root, paths at or below ignore entries and existing paths above entries are left, unchanged |
| `TarNames.NamesDecode` | pkg/util/tar_util.go:189-203 | joining the root and the cleaned name gives the path back if and only if it is at or under the root |
| `TarNames.MarkerIsWhiteoutName` | pkg/util/tar_util.go:174-176 | the joined text of directory and marked base is the path of the whiteout name |
| `TarNames.WhiteoutsDecode` | pkg/util/fs_util.go:262-275 | a whiteout for a path below the root decodes to the deletion of exactly that path |
| `TarNames.EntriesDecode` | pkg/util/fs_util.go:262-271 | an entry is extracted to its own path if and only if its last component is no marker; else it is taken for the deletion of exactly the path that the marker decodes to |

## Left out

- Registry, bucket, git and HTTP clients, push, credentials: the layer cache is a partial map, and a layer is its entries.
- Sandbox roots, namespaces, bind mounts, process execution: the root is "/", and RUN is any change that its hypotheses allow. Only `TarNames` has another root.
- Dockerfile parsing, word expansion, `.dockerignore`, SecureJoin: uninterpreted functions or inputs.
- Hashing, compression, xattrs, mtimes, owners of symbolic links: two trees are equal if kinds, attributes, contents and link targets are. The hash of a file is a field of the disk, and that equal hashes mean equal nodes is the hypothesis `NoCollision`.
- Glob and prefix-only ignore entries, and the scan for mounts that fills the list: entries are literal paths other than the root.
- `--single-snapshot`, volumes, opaque whiteouts, deletion detection of `--use-new-run`, `--initial-fs-unpacked`, `--force-build-metadata` in the stage builder: not modelled.
- Errors of commands, of key computation and of `os.RemoveAll` in `DeleteFilesystem`: the model assumes that these succeed. Extraction errors are modelled.
- Timeout, logging and concurrent pushes: a push is an event in command order.
- Build args that one stage hands on to the next (`pkg/executor/build.go:740`): the term of a stage does not depend on them, so an ARG in a dropped stage is not seen.
- ONBUILD triggers and the contents of `COPY --from` directories: a copy denotes its source image and its text.
- Lower-casing and case folding: ASCII only.
- RoundTrip.ApplyUndoesDiff: `LinksGiveWay` is a hypothesis, and only sufficient for links that lead over hidden paths, of which a layer says nothing; `LinkLimits.DirEntryExact` is the equivalence for one entry. So is `Steady`: no entry is written into a directory that a marker file took away before, since the owner that extraction gives to a directory it has to make again is not modelled.
- IgnoredPaths.IgnoredStay: asks of every entry that is not passed over that, when it comes, only directories stand above its name, and that no link has the name of a directory entry unless it gives way; `IgnoredPaths.NotStraight` is an input without that.
- RoundTrip.LayerRespectsAgreement: requires `Keepable`, as do cached layers: marker files of the layer are regular files, links or pipes, not directories or further names of a file, and no file is a link to one.
- Files below a directory with a marker's name, and a marker in the root directory that stands for the root itself (`.wh.`): layers do not speak of them.
- Snapshotters.Snapshotter.ScanFullFilesystem: requires that what is scanned can be hashed and that changed links evaluate or lead nowhere, and so do `Init` and `TakeSnapshotFS`. `WalkFS` and `ResolvePaths` say what happens otherwise.
- Snapshotters.Snapshotter.TakeSnapshot: requires the same of the files listed, and that they lead to nothing ignored nor below a marker's name.
- StageRuns.StageRun.CopyFiles: takes COPY, ADD and WORKDIR to delete nothing, as they do unless a copy replaces a directory.
- StageRuns.StageRun.Build: a RUN may not add pipes or devices, whose absence from the image `RoundTrip.ApplyUndoesDiff` shows, nor links that evaluate with an error; nor may it change a marker file whose path is there, or link a visible file to one, where `LinkLimits` has the inputs.
- StageRuns.StageRun.CopyNothing: asks this of every marker file on the disk, not only of changed ones, because without an initial snapshot the record may know none of them.
- DeleteFs.FileSystem.DeleteFilesystem: takes names on the disk to have no glob characters. The code uses the walked path as the pattern, so that a file called `*` beside an entry `/proc` survives, and a whiteout for it is held back.
- DeleteFs.FileSystem.Visit: the same.
- StageBuilders.CacheRefinement: a WORKDIR that is wrong on a bare disk can be made up for by a later layer; `StageBuilders.LayersExact` is the equivalence for all prefixes.
- Dockerfiles.PruningKeepsMeaning: is one-way for terms, because two stages that denote the same image can stand in for each other; for references `Dockerfiles.RefsExact` is the equivalence.
- StageBuilders.KeysIdentifyStates: requires equal starting states for equal first keys, build args included; different build args behind equal keys are not covered.
- Builders.CompositeCache.AddPath: errors of `Lstat` and of the hasher are left out, and the hash of a directory is an uninterpreted function of its path; that the code hashes no file names there is not modelled.
- StageRuns.StageRun.UseCached: the layer must come from some snapshot; layers put into the cache by other tools are not covered. After the initial snapshot `StageRuns.StageRun.RestoredIsMissed` shows what can go wrong.

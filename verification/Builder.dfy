/** The two passes of the stage builder, and the composite key that both of them grow. */
module Builders {
  import opened Options
  import opened Sorting
  import opened CompositeKeys
  import opened StageBuilders

  class CompositeCache {
    var keys: seq<string>

    constructor (initial: seq<string>)
      ensures keys == initial
    {
      keys := initial;
    }

    method AddKey(k: seq<string>)
      modifies this
      ensures keys == old(keys) + k
    {
      keys := keys + k;
    }

    /** Adds the hash of a file, unless the build context excludes it. */
    method AddPath<F, L>(p: string, world: World<F, L>)
      modifies this
      ensures keys == old(keys) + FileKeys(world, [p])
    {
      assert [p][..0] == [];
      match world.fileHash(p) {
        case None =>
        case Some(k) => keys := keys + [k];
      }
    }

    method AddPaths<F, L>(files: seq<string>, world: World<F, L>)
      modifies this
      ensures keys == old(keys) + FileKeys(world, files)
    {
      for i := 0 to |files|
        invariant keys == old(keys) + FileKeys(world, files[..i])
      {
        AddPath(files[i], world);
        FileKeysExact(world, files[..i], [files[i]], files[i]);
        assert files[..i + 1] == files[..i] + [files[i]];
      }
      assert files[..|files|] == files;
    }

    function Key(): string
      reads this
    {
      Join(keys)
    }
  }

  lemma EncodeFront(envs: seq<string>, text: string)
    ensures Encode(Block(envs, text, [])) == (if envs == [] then [] else [CountMark(|envs|)] + envs) + [text]
  {
  }

  lemma EncodeHashes(envs: seq<string>, text: string, hashes: seq<string>)
    ensures Encode(Block(envs, text, hashes)) == Encode(Block(envs, text, [])) + hashes
  {
  }

  /** The command at index `i` pushes a layer: it is cacheable, was not swapped, and has one. */
  predicate PushesLayer<F, L>(w: World<F, L>, after: seq<Command<L>>, s: State<F>, i: nat)
    requires i < |after|
  {
    after[i].ShouldCacheOutput() && FilesToSnapshot(w, after[i], StateAt(w, after, s, i)) != Some([])
  }

  /** RUN and COPY, where caching of their layers is not switched off. */
  ghost predicate Cacheable<L>(c: Command<L>) {
    (c.Run? && c.shdCache) || (c.RunMarker? && c.shdCache) || (c.Copy? && c.shdCache)
  }

  /** The order of the pushes. */
  function PushOrder<F, L>(w: World<F, L>, after: seq<Command<L>>, s: State<F>, i: nat): seq<nat>
    requires i <= |after|
  {
    if i == 0 then [] else PushOrder(w, after, s, i - 1) + if PushesLayer(w, after, s, i - 1) then [i - 1] else []
  }

  ghost predicate Ascending(ns: seq<nat>, bound: nat) {
    (forall j, k :: 0 <= j < k < |ns| ==> ns[j] < ns[k]) && (forall j :: 0 <= j < |ns| ==> ns[j] < bound)
  }

  lemma {:induction false} PushOrderExact<F, L>(w: World<F, L>, after: seq<Command<L>>, s: State<F>, i: nat)
    requires i <= |after|
    ensures Ascending(PushOrder(w, after, s, i), i)
    ensures forall j: nat :: j in PushOrder(w, after, s, i) <==> j < i && PushesLayer(w, after, s, j)
  {
    hide PushesLayer;
    if i > 0 {
      PushOrderExact(w, after, s, i - 1);
    }
  }

  ghost predicate PushKeys<F, L>(w: World<F, L>, cmds: seq<Command<L>>, v: View, keys: seq<string>,
                                 order: seq<nat>, pushes: seq<(string, L)>)
  {
    |pushes| == |order| && forall k :: 0 <= k < |order| ==> order[k] < |cmds| && pushes[k].0 == KeyOf(w, cmds, v, keys, order[k])
  }

  lemma {:induction false} PushesInOrder<F, L>(w: World<F, L>, cmds: seq<Command<L>>, after: seq<Command<L>>,
                                               s: State<F>, keys: seq<string>, i: nat)
    requires AllStandFor(cmds, after) && i <= |cmds|
    ensures PushKeys(w, cmds, ViewOf(s), keys, PushOrder(w, after, s, i), PushesAt(w, after, s, keys, i))
  {
    hide StateAt, BuildKeysAt, KeysAt, Exec;
    if i > 0 {
      PushesInOrder(w, cmds, after, s, keys, i - 1);
      KeysAgree(w, cmds, after, s, keys, i);
    }
  }

  /**
   * Each cacheable command is served from the cache, or else pushed, once and under the key it was looked
   * up with, unless it has run and lists no file: such a command has no layer to push, and its key stays
   * unknown. Every command that is served precedes every one that is pushed.
   */
  lemma ServedOrPushed<F, L>(w: World<F, L>, cache: map<string, L>, cmds: seq<Command<L>>, after: seq<Command<L>>,
                             s: State<F>, keys: seq<string>)
    requires Fresh(cmds) && Optimized(w, cache, cmds, ViewOf(s), keys, after)
    ensures var order := PushOrder(w, after, s, |after|);
      && Ascending(order, |cmds|)
      && PushKeys(w, cmds, ViewOf(s), keys, order, PushesAt(w, after, s, keys, |after|))
      && (forall i :: 0 <= i < |cmds| ==>
            (i in order
             <==> Cacheable(cmds[i]) && !after[i].IsCached() && FilesToSnapshot(w, cmds[i], StateAt(w, after, s, i)) != Some([])))
      && (forall i :: 0 <= i < |cmds| && after[i].IsCached() ==>
            Cacheable(cmds[i]) && forall j :: j in order ==> i < j)
  {
    hide PushesAt, KeyOf, PushKeys, PushOrder, StateAt, FilesToSnapshot;
    OptimizedAllStandFor(w, cache, cmds, ViewOf(s), keys, after);
    PushOrderExact(w, after, s, |after|);
    PushesInOrder(w, cmds, after, s, keys, |after|);
    forall i, j | 0 <= i < |cmds| && after[i].IsCached() && j in PushOrder(w, after, s, |after|) ensures i < j {
      assert PushesLayer(w, after, s, j);
      if j <= i {
        assert Hit(w, cache, cmds, ViewOf(s), keys, i);
        HitsFormPrefix(w, cache, cmds, ViewOf(s), keys, j, i);
      }
    }
  }

  const IDLE: seq<Command<(int, int)>> := [RunMarker("RUN true", true)]

  /** A RUN that reports its files and touches none is neither served nor pushed. */
  lemma IdleRunIsNeverPushed(keys: seq<string>)
    ensures var s := State(7, Config([], ""), map[]);
      && IDLE[0].ShouldCacheOutput() && SnapshotsRight(WORLD, IDLE, s)
      && Optimized(WORLD, map[], IDLE, ViewOf(s), keys, IDLE) && !IDLE[0].IsCached()
      && PushesAt(WORLD, IDLE, s, keys, 1) == []
  {
    var s := State(7, Config([], ""), map[]);
    assert StateAt(WORLD, IDLE, s, 0) == s;
    assert Snapped(WORLD, IDLE[0], s) == None;
    assert PushesAt(WORLD, IDLE, s, keys, 0) == [];
  }

  class StageBuilder<F, L> {
    const world: World<F, L>
    const useCache: bool
    const noPushCache: bool
    const crossStage: bool
    const layerCache: map<string, L>
    const baseKey: string
    const baseFs: F
    var cmds: seq<Command<L>>
    var args: Args
    var cf: Config
    var fs: F
    var image: seq<L>
    var pushed: seq<(string, L)>
    var finalCacheKey: string
    var initSnapshotTaken: bool

    constructor (world: World<F, L>, useCache: bool, noPushCache: bool, crossStage: bool, layerCache: map<string, L>,
                 baseKey: string, baseFs: F, cmds: seq<Command<L>>, args: Args, cf: Config, fs: F)
      ensures this.world == world && this.useCache == useCache && this.noPushCache == noPushCache
      ensures this.crossStage == crossStage && this.layerCache == layerCache
      ensures this.baseKey == baseKey && this.baseFs == baseFs
      ensures this.cmds == cmds && this.args == args && this.cf == cf && this.fs == fs
      ensures image == [] && pushed == [] && finalCacheKey == "" && !initSnapshotTaken
    {
      this.world, this.useCache, this.noPushCache := world, useCache, noPushCache;
      this.crossStage, this.layerCache, this.baseKey, this.baseFs := crossStage, layerCache, baseKey, baseFs;
      this.cmds, this.args, this.cf, this.fs := cmds, args, cf, fs;
      image, pushed, finalCacheKey, initSnapshotTaken := [], [], "", false;
    }

    /** The composite key is passed by value: the caller's is not touched. */
    method PopulateCompositeKey(command: Command<L>, files: seq<string>, compositeKey: CompositeCache, args: Args, env: seq<string>)
      returns (r: CompositeCache)
      ensures fresh(r)
      ensures r.keys == compositeKey.keys +
                        Encode(Block(if RunsProgram(command) then Sorted(world.replacementEnvs(args, env)) else [],
                                     command.text, FileKeys(world, files)))
    {
      hide Sorted, CountMark, FileKeys, Encode;
      r := new CompositeCache(compositeKey.keys);
      var replacementEnvs := SortStrings(world.replacementEnvs(args, env));
      ghost var envs := if command.IsArgsEnvsRequiredInCache() then replacementEnvs else [];
      if command.IsArgsEnvsRequiredInCache() {
        if |replacementEnvs| > 0 {
          r.AddKey([CountMark(|replacementEnvs|)]);
          r.AddKey(replacementEnvs);
        }
      }
      r.AddKey([command.text]);
      ghost var front := compositeKey.keys + Encode(Block(envs, command.text, []));
      EncodeFront(envs, command.text);
      assert r.keys == front;
      r.AddPaths(files, world);
      EncodeHashes(envs, command.text, FileKeys(world, files));
    }

    method FilesUsedFromContext(command: Command<L>, env: seq<string>, args: Args) returns (files: seq<string>)
      ensures files == FilesUsed(world, command, View(env, args))
      ensures files == if CopiesFiles(command) then world.contextFiles(command.text, env, args) else []
    {
      files := if command.UsesContext() then world.contextFiles(command.text, env, args) else [];
    }

    /** One round of the first pass. */
    method OptimizeCommand(i: nat, compositeKey: CompositeCache, cfg: Config, stopCache: bool)
      returns (newKey: CompositeCache, newCfg: Config, stopped: bool)
      requires i < |cmds|
      modifies `cmds, `args, `finalCacheKey
      ensures fresh(newKey)
      ensures newKey.keys == compositeKey.keys + Encode(BlockOf(world, old(cmds)[i], View(cfg.env, old(args))))
      ensures finalCacheKey == world.hash(newKey.keys)
      ensures View(newCfg.env, args) == ViewStep(world, old(cmds)[i], View(cfg.env, old(args)))
      ensures var c := old(cmds)[i];
        && (stopped <==> stopCache || (c.ShouldCacheOutput() && finalCacheKey !in layerCache))
        && cmds == if c.ShouldCacheOutput() && !stopped then old(cmds)[i := c.CacheCommand(layerCache[finalCacheKey])] else old(cmds)
    {
      hide BlockOf, Encode, Sorted, FileKeys, FilesUsed;
      newCfg, stopped := cfg, stopCache;
      var command := cmds[i];
      var files := FilesUsedFromContext(command, cfg.env, args);
      newKey := PopulateCompositeKey(command, files, compositeKey, args, cfg.env);
      BlockIs(world, command, View(cfg.env, args), files);
      var ck := world.hash(newKey.keys);
      finalCacheKey := ck;
      if command.ShouldCacheOutput() && !stopCache {
        if ck !in layerCache {
          stopped := true;
          return;
        }
        cmds := cmds[i := command.CacheCommand(layerCache[ck])];
      }
      if command.MetadataOnly() {
        newCfg, args := Config(world.metaEnv(command.text, cfg.env, args), world.newRest(command.text, cfg, args)),
                        world.metaArgs(command.text, cfg.env, args);
      }
    }

    /** The first pass: swaps commands for their cached versions up to the first miss. */
    method Optimize(compositeKey: CompositeCache, cfg: Config)
      modifies `cmds, `args, `finalCacheKey
      ensures args == old(args)
      ensures useCache ==> Optimized(world, layerCache, old(cmds), View(cfg.env, old(args)), compositeKey.keys, cmds)
      ensures !useCache ==> cmds == old(cmds)
      ensures finalCacheKey == if useCache && old(cmds) != []
                then KeyOf(world, old(cmds), View(cfg.env, old(args)), compositeKey.keys, |old(cmds)| - 1) else old(finalCacheKey)
    {
      hide *;
      if !useCache {
        return;
      }
      var buildArgs := args;
      OptimizeCommands(compositeKey, cfg);
      args := buildArgs;
    }

    method OptimizeCommands(compositeKey: CompositeCache, cfg: Config)
      modifies `cmds, `args, `finalCacheKey
      ensures Optimized(world, layerCache, old(cmds), View(cfg.env, old(args)), compositeKey.keys, cmds)
      ensures finalCacheKey == if old(cmds) != []
                then KeyOf(world, old(cmds), View(cfg.env, old(args)), compositeKey.keys, |old(cmds)| - 1) else old(finalCacheKey)
    {
      ghost var given, v, keys := cmds, View(cfg.env, args), compositeKey.keys;
      var cfg, compositeKey := cfg, compositeKey;
      var stopCache := false;
      NoneYet(world, layerCache, given, v, keys);
      assert HalfOptimized(world, layerCache, given, v, keys, 0, cmds);
      hide *;
      for i := 0 to |cmds|
        invariant |cmds| == |given| && HalfOptimized(world, layerCache, given, v, keys, i, cmds)
        invariant compositeKey.keys == KeysAt(world, given, v, keys, i)
        invariant View(cfg.env, args) == ViewAt(world, given, v, i)
        invariant stopCache <==> !NoMissBefore(world, layerCache, given, v, keys, i)
        invariant finalCacheKey == if i > 0 then KeyOf(world, given, v, keys, i - 1) else old(finalCacheKey)
      {
        ghost var was, going := cmds, !stopCache;
        HalfNext(world, layerCache, given, v, keys, i, was);
        compositeKey, cfg, stopCache := OptimizeCommand(i, compositeKey, cfg, stopCache);
        OneMore(world, given, v, keys, i);
        HalfStep(world, layerCache, given, v, keys, i, was, cmds, going, !stopCache);
      }
      HalfDone(world, layerCache, given, v, keys, cmds);
    }

    /** The second pass: runs the commands, appends their layers, and pushes those that were not cached. */
    method Build()
      requires image == [] && pushed == [] && !initSnapshotTaken && Fresh(cmds)
      modifies this
      ensures var s := State(baseFs, old(cf), old(args));
        && Optimized(world, EffectiveCache(), old(cmds), ViewOf(s), [baseKey], cmds)
        && var t := StartOf(cmds, crossStage, s, old(fs));
        && image == LayersAt(world, cmds, t, |cmds|)
        && pushed == (if useCache && !noPushCache then PushesAt(world, cmds, t, [baseKey], |cmds|) else [])
        && State(fs, cf, args) == StateAt(world, cmds, t, |cmds|)
        && (initSnapshotTaken <==> exists i :: 0 <= i < |cmds| && TakesInitialSnapshot(cmds[i]))
      ensures finalCacheKey == if useCache && old(cmds) != []
                then KeyOf(world, old(cmds), View(old(cf).env, old(args)), [baseKey], |old(cmds)| - 1) else old(finalCacheKey)
      ensures crossStage || (exists i :: 0 <= i < |cmds| && (cmds[i].Run? || cmds[i].RunMarker? || cmds[i].Copy? || cmds[i].Add?)) ==>
        fs == StateAt(world, cmds, State(baseFs, old(cf), old(args)), |cmds|).fs
      ensures var s := State(baseFs, old(cf), old(args));
        CacheRight(world, EffectiveCache(), old(cmds), s, [baseKey]) && SnapshotsRight(world, old(cmds), s)
        && WorkdirsLevel(world, old(cmds), cmds, s, StartOf(cmds, crossStage, s, old(fs)))
        ==> && cf == StateAt(world, old(cmds), s, |old(cmds)|).cfg
            && Flatten(world, baseFs, image) == StateAt(world, old(cmds), s, |old(cmds)|).fs
    {
      hide KeyOf, Optimized, StateAt, LayersAt, PushesAt, Flatten, CacheRight, SnapshotsRight, WorkdirsLevel, Fresh, AllStandFor;
      ghost var s := State(baseFs, cf, args);
      var compositeKey := new CompositeCache([baseKey]);
      Optimize(compositeKey, cf);
      if !useCache {
        NoCacheOptimized(world, cmds, ViewOf(s), [baseKey]);
      }
      OptimizedAllStandFor(world, EffectiveCache(), old(cmds), ViewOf(s), [baseKey], cmds);
      var shouldUnpack := crossStage;
      for i := 0 to |cmds|
        invariant shouldUnpack <==> crossStage || exists j :: 0 <= j < i && cmds[j].RequiresUnpackedFS()
      {
        if cmds[i].RequiresUnpackedFS() {
          shouldUnpack := true;
        }
      }
      if shouldUnpack {
        fs := baseFs;
      }
      ghost var t := State(fs, cf, args);
      assert t == StartOf(cmds, crossStage, s, old(fs));
      RunCommands(compositeKey);
      CacheRefined(s, old(cmds), old(fs), cmds);
    }

    /** What the first pass looks layers up in: nothing, unless the cache is enabled. */
    function EffectiveCache(): map<string, L> {
      if useCache then layerCache else map[]
    }

    lemma CacheRefined(s: State<F>, given: seq<Command<L>>, bare: F, after: seq<Command<L>>)
      requires Fresh(given) && s.fs == baseFs && Optimized(world, EffectiveCache(), given, ViewOf(s), [baseKey], after)
      ensures CacheRight(world, EffectiveCache(), given, s, [baseKey]) && SnapshotsRight(world, given, s)
        && WorkdirsLevel(world, given, after, s, StartOf(after, crossStage, s, bare))
        ==> var t, n := StartOf(after, crossStage, s, bare), |given|;
          && StateAt(world, after, t, n).cfg == StateAt(world, given, s, n).cfg
          && Flatten(world, baseFs, LayersAt(world, after, t, n)) == StateAt(world, given, s, n).fs
    {
      hide StateAt, Optimized, CacheRight, SnapshotsRight, WorkdirsLevel, LayersAt, Flatten, Fresh, StartOf;
      if && CacheRight(world, EffectiveCache(), given, s, [baseKey]) && SnapshotsRight(world, given, s)
         && WorkdirsLevel(world, given, after, s, StartOf(after, crossStage, s, bare)) {
        CacheRefinement(world, EffectiveCache(), given, after, s, bare, [baseKey], crossStage);
      }
    }

    method RunCommands(compositeKey: CompositeCache)
      requires image == [] && pushed == [] && !initSnapshotTaken && compositeKey.keys == [baseKey]
      modifies `fs, `cf, `args, `image, `pushed, `initSnapshotTaken
      ensures var t := State(old(fs), old(cf), old(args));
        && image == LayersAt(world, cmds, t, |cmds|)
        && pushed == (if useCache && !noPushCache then PushesAt(world, cmds, t, [baseKey], |cmds|) else [])
        && State(fs, cf, args) == StateAt(world, cmds, t, |cmds|)
        && (initSnapshotTaken <==> exists i :: 0 <= i < |cmds| && TakesInitialSnapshot(cmds[i]))
    {
      hide BlockOf, Encode, Sorted, FileKeys, FilesUsed, StateAt, LayersAt, PushesAt, BuildKeysAt, Appended, Pushes, Exec;
      ghost var t := State(fs, cf, args);
      var compositeKey := compositeKey;
      NothingRun(world, cmds, t, [baseKey]);
      for index := 0 to |cmds|
        invariant State(fs, cf, args) == StateAt(world, cmds, t, index)
        invariant image == LayersAt(world, cmds, t, index)
        invariant useCache ==> compositeKey.keys == BuildKeysAt(world, cmds, t, [baseKey], index)
        invariant pushed == if useCache && !noPushCache then PushesAt(world, cmds, t, [baseKey], index) else []
        invariant initSnapshotTaken <==> exists i :: 0 <= i < index && TakesInitialSnapshot(cmds[i])
      {
        hide Flatten, Unpacks;
        OneMoreRun(world, cmds, t, [baseKey], index);
        compositeKey := RunCommand(cmds[index], compositeKey);
      }
    }

    /** The loop body: grows the key, takes the initial snapshot if it is due, and runs the command. */
    method RunCommand(command: Command<L>, compositeKey: CompositeCache) returns (newKey: CompositeCache)
      modifies `fs, `cf, `args, `image, `pushed, `initSnapshotTaken
      ensures useCache ==> newKey.keys == compositeKey.keys + Encode(BlockOf(world, command, View(old(cf).env, old(args))))
      ensures State(fs, cf, args) == Exec(world, command, old(State(fs, cf, args)))
      ensures image == old(image) + Appended(world, command, old(State(fs, cf, args)))
      ensures pushed == old(pushed) + if useCache && !noPushCache then Pushes(world, command, newKey.keys, old(State(fs, cf, args))) else []
      ensures initSnapshotTaken <==> old(initSnapshotTaken) || TakesInitialSnapshot(command)
    {
      hide *;
      ghost var s := State(fs, cf, args);
      newKey := GrowKey(command, compositeKey);
      ToTakeInitial(command);
      if !initSnapshotTaken && !command.IsCached() && !command.ProvidesFilesToSnapshot() {
        initSnapshotTaken := true;
      }
      var before := fs;
      var filesToSnapshot := ExecuteCommand(command);
      SaveOutput(command, filesToSnapshot, before, newKey, s);
    }

    /** The key that the command completes, if there is a cache. */
    method GrowKey(command: Command<L>, compositeKey: CompositeCache) returns (newKey: CompositeCache)
      ensures useCache ==> newKey.keys == compositeKey.keys + Encode(BlockOf(world, command, View(cf.env, args)))
    {
      hide *;
      newKey := compositeKey;
      var files := FilesUsedFromContext(command, cf.env, args);
      if useCache {
        newKey := PopulateCompositeKey(command, files, compositeKey, args, cf.env);
        BlockIs(world, command, View(cf.env, args), files);
      }
    }

    /** The end of the loop body: snapshots a command that was run, and appends and pushes its layer. */
    method SaveOutput(command: Command<L>, files: Option<seq<string>>, before: F, compositeKey: CompositeCache, ghost s: State<F>)
      requires before == s.fs && State(fs, cf, args) == Exec(world, command, s)
      requires !command.IsCached() ==> files == FilesToSnapshot(world, command, s)
      modifies `image, `pushed
      ensures image == old(image) + Appended(world, command, s)
      ensures image == old(image)
              || (image[..|image| - 1] == old(image) && (command.IsCached() || !world.isEmpty(image[|image| - 1])))
      ensures pushed == old(pushed) + if useCache && !noPushCache then Pushes(world, command, compositeKey.keys, s) else []
    {
      hide Exec;
      if !ShouldTakeSnapshot(command.MetadataOnly()) {
        return;
      }
      if command.IsCached() {
        image := image + [command.layer];
      } else {
        var snapshot := TakeSnapshot(files, before);
        if useCache && command.ShouldCacheOutput() && !noPushCache {
          PushLayerToCache(world.hash(compositeKey.keys), snapshot);
        }
        if snapshot.Some? && !world.isEmpty(snapshot.value) {
          image := image + [snapshot.value];
        }
      }
    }

    /** `pushLayerToCache`: without a tar file there is nothing to push, which is a warning only. */
    method PushLayerToCache(cacheKey: string, layer: Option<L>)
      modifies `pushed
      ensures pushed == old(pushed) + if layer.Some? then [(cacheKey, layer.value)] else []
    {
      if layer.None? {
        return;
      }
      pushed := pushed + [(cacheKey, layer.value)];
    }

    /** Runs the command and tells which files it lists; cached commands are not asked. */
    method ExecuteCommand(command: Command<L>) returns (files: Option<seq<string>>)
      modifies `fs, `cf, `args
      ensures State(fs, cf, args) == Exec(world, command, old(State(fs, cf, args)))
      ensures !command.IsCached() ==> files == FilesToSnapshot(world, command, old(State(fs, cf, args)))
      ensures cf.env == if command.Meta? then world.metaEnv(command.text, old(cf).env, old(args)) else old(cf).env
      ensures cf.rest == if command.Meta? || command.Workdir? then world.newRest(command.text, old(cf), old(args)) else old(cf).rest
      ensures args == if command.Meta? then world.metaArgs(command.text, old(cf).env, old(args)) else old(args)
      ensures command.Run? ==> files == None
      ensures command.Meta? ==> files == Some([])
    {
      files := if command.Run? then None else if command.Meta? then Some([]) else world.listed(command.text, cf, args, fs);
      match command {
        case Meta(text) =>
          cf, args := Config(world.metaEnv(text, cf.env, args), world.newRest(text, cf, args)), world.metaArgs(text, cf.env, args);
        case Workdir(text) =>
          fs, cf := world.newFs(text, cf, args, fs), cf.(rest := world.newRest(text, cf, args));
        case CachingRun(_, layer) => fs := world.apply(fs, layer);
        case CachingCopy(_, layer) => fs := world.apply(fs, layer);
        case _ => fs := world.newFs(command.text, cf, args, fs);
      }
    }

    /** With a cache every command is snapshotted, else every command but metadata ones. */
    predicate ShouldTakeSnapshot(isMetadataCmd: bool) {
      useCache || !isMetadataCmd
    }

    /** No list asks for a snapshot of everything, an empty list for none, any other for one of the files. */
    method TakeSnapshot(files: Option<seq<string>>, before: F) returns (snapshot: Option<L>)
      ensures snapshot.None? <==> files.Some? && files.value == []
      ensures snapshot.Some? ==> snapshot.value == world.snapshot(files, before, fs)
    {
      match files {
        case None => snapshot := Some(world.snapshot(files, before, fs));
        case Some(listed) =>
          if |listed| == 0 {
            return None;
          }
          snapshot := Some(world.snapshot(files, before, fs));
      }
    }
  }

  lemma ToTakeInitial<L>(c: Command<L>)
    ensures TakesInitialSnapshot(c) <==> !c.IsCached() && !c.ProvidesFilesToSnapshot()
  {
  }

  lemma BlockIs<F, L>(w: World<F, L>, c: Command<L>, v: View, files: seq<string>)
    requires files == FilesUsed(w, c, v)
    ensures BlockOf(w, c, v)
         == Block(if RunsProgram(c) then Sorted(w.replacementEnvs(v.args, v.env)) else [], c.text, FileKeys(w, files))
  {
  }

  lemma NoneYet<F, L>(w: World<F, L>, cache: map<string, L>, cmds: seq<Command<L>>, v: View, keys: seq<string>)
    ensures KeysAt(w, cmds, v, keys, 0) == keys && ViewAt(w, cmds, v, 0) == v && NoMissBefore(w, cache, cmds, v, keys, 0)
  {
  }

  lemma OneMore<F, L>(w: World<F, L>, cmds: seq<Command<L>>, v: View, keys: seq<string>, i: nat)
    requires i < |cmds|
    ensures KeysAt(w, cmds, v, keys, i + 1) == KeysAt(w, cmds, v, keys, i) + Encode(BlockOf(w, cmds[i], ViewAt(w, cmds, v, i)))
    ensures KeyOf(w, cmds, v, keys, i) == w.hash(KeysAt(w, cmds, v, keys, i + 1))
    ensures ViewAt(w, cmds, v, i + 1) == ViewStep(w, cmds[i], ViewAt(w, cmds, v, i))
  {
    hide BlockOf, Encode;
  }

  lemma NothingRun<F, L>(w: World<F, L>, cmds: seq<Command<L>>, s: State<F>, keys: seq<string>)
    ensures StateAt(w, cmds, s, 0) == s && LayersAt(w, cmds, s, 0) == [] && PushesAt(w, cmds, s, keys, 0) == []
    ensures BuildKeysAt(w, cmds, s, keys, 0) == keys
  {
  }

  lemma OneMoreRun<F, L>(w: World<F, L>, cmds: seq<Command<L>>, s: State<F>, keys: seq<string>, i: nat)
    requires i < |cmds|
    ensures var x, y := StateAt(w, cmds, s, i), StateAt(w, cmds, s, i + 1);
      && y == Exec(w, cmds[i], x)
      && BuildKeysAt(w, cmds, s, keys, i + 1) == BuildKeysAt(w, cmds, s, keys, i) + Encode(BlockOf(w, cmds[i], ViewOf(x)))
      && LayersAt(w, cmds, s, i + 1) == LayersAt(w, cmds, s, i) + Appended(w, cmds[i], x)
      && PushesAt(w, cmds, s, keys, i + 1)
         == PushesAt(w, cmds, s, keys, i) + Pushes(w, cmds[i], BuildKeysAt(w, cmds, s, keys, i + 1), x)
  {
    hide BlockOf, Encode, Appended, Pushes, Exec;
  }

  /** What the first pass decides at command `i`, from whether it has missed before. */
  lemma SwapStep<F, L>(w: World<F, L>, cache: map<string, L>, cmds: seq<Command<L>>, v: View, keys: seq<string>, i: nat)
    requires i < |cmds|
    ensures var c, k, going := cmds[i], KeyOf(w, cmds, v, keys, i), NoMissBefore(w, cache, cmds, v, keys, i);
      && (NoMissBefore(w, cache, cmds, v, keys, i + 1) <==> going && (c.ShouldCacheOutput() ==> k in cache))
      && if c.ShouldCacheOutput() && going && k in cache then Swapped(w, cache, cmds, v, keys, i, c.CacheCommand(cache[k]))
         else Swapped(w, cache, cmds, v, keys, i, c)
  {
    hide KeyOf;
  }

  /** The commands after `i` rounds of the first pass. */
  ghost predicate HalfOptimized<F, L>(w: World<F, L>, cache: map<string, L>, cmds: seq<Command<L>>, v: View, keys: seq<string>,
                                      i: nat, after: seq<Command<L>>)
    requires i <= |cmds|
  {
    && |after| == |cmds|
    && (forall j :: 0 <= j < i ==> Swapped(w, cache, cmds, v, keys, j, after[j]))
    && (forall j :: i <= j < |cmds| ==> after[j] == cmds[j])
  }

  lemma HalfNext<F, L>(w: World<F, L>, cache: map<string, L>, cmds: seq<Command<L>>, v: View, keys: seq<string>,
                       i: nat, after: seq<Command<L>>)
    requires i < |cmds| && HalfOptimized(w, cache, cmds, v, keys, i, after)
    ensures |after| == |cmds| && after[i] == cmds[i]
  {
    hide Swapped;
  }

  lemma HalfStep<F, L>(w: World<F, L>, cache: map<string, L>, cmds: seq<Command<L>>, v: View, keys: seq<string>,
                       i: nat, was: seq<Command<L>>, now: seq<Command<L>>, going: bool, goesOn: bool)
    requires i < |cmds| && |was| == |cmds| && HalfOptimized(w, cache, cmds, v, keys, i, was)
    requires going <==> NoMissBefore(w, cache, cmds, v, keys, i)
    requires var c, k := cmds[i], KeyOf(w, cmds, v, keys, i);
      && (goesOn <==> going && !(c.ShouldCacheOutput() && k !in cache))
      && now == if c.ShouldCacheOutput() && goesOn then was[i := c.CacheCommand(cache[k])] else was
    ensures |now| == |cmds| && HalfOptimized(w, cache, cmds, v, keys, i + 1, now)
    ensures goesOn <==> NoMissBefore(w, cache, cmds, v, keys, i + 1)
  {
    hide Swapped, NoMissBefore, KeyOf;
    SwapStep(w, cache, cmds, v, keys, i);
    assert now == was[i := now[i]];
  }

  lemma HalfDone<F, L>(w: World<F, L>, cache: map<string, L>, cmds: seq<Command<L>>, v: View, keys: seq<string>, after: seq<Command<L>>)
    requires HalfOptimized(w, cache, cmds, v, keys, |cmds|, after)
    ensures Optimized(w, cache, cmds, v, keys, after)
  {
    hide Swapped;
  }

  /** Without a cache the first pass changes nothing. */
  lemma NoCacheOptimized<F, L>(w: World<F, L>, cmds: seq<Command<L>>, v: View, keys: seq<string>)
    ensures Optimized(w, map[], cmds, v, keys, cmds)
  {
  }
}

/** The layer-cache protocol of a stage: one pass looks layers up, a second builds and pushes. */
module StageBuilders {
  import opened Options
  import opened Sorting
  import opened CompositeKeys

  type Args = map<string, string>

  /** The image config: the environment, and everything that no cache key depends on. */
  datatype Config = Config(env: seq<string>, rest: string)

  /** The commands of a stage, with the flags that the two passes consult. */
  datatype Command<L> =
    | Run(text: string, shdCache: bool)
    | RunMarker(text: string, shdCache: bool)
    | Copy(text: string, shdCache: bool)
    | Add(text: string)
    | Workdir(text: string)
    | Meta(text: string)
    | CachingRun(text: string, layer: L)
    | CachingCopy(text: string, layer: L)
  {
    predicate MetadataOnly() { Meta? }

    predicate ShouldCacheOutput() { (Run? || RunMarker? || Copy?) && shdCache }

    predicate IsArgsEnvsRequiredInCache() { Run? || RunMarker? || CachingRun? }

    predicate ProvidesFilesToSnapshot() { !Run? }

    predicate RequiresUnpackedFS() { Run? || RunMarker? || Copy? || Add? }

    predicate UsesContext() { Copy? || Add? || CachingCopy? }

    predicate IsCached() { CachingRun? || CachingCopy? }

    function CacheCommand(l: L): Command<L>
      requires ShouldCacheOutput()
    {
      if Copy? then CachingCopy(text, l) else CachingRun(text, l)
    }
  }

  /** Everything the protocol takes from outside: effects, file lists, hashes, and the two layer operations. */
  datatype World<!F, !L> = World(
    metaEnv: (string, seq<string>, Args) -> seq<string>,
    metaArgs: (string, seq<string>, Args) -> Args,
    newRest: (string, Config, Args) -> string,
    contextFiles: (string, seq<string>, Args) -> seq<string>,
    fileHash: string -> Option<string>,
    replacementEnvs: (Args, seq<string>) -> seq<string>,
    newFs: (string, Config, Args, F) -> F,
    apply: (F, L) -> F,
    listed: (string, Config, Args, F) -> Option<seq<string>>,
    snapshot: (Option<seq<string>>, F, F) -> L,
    isEmpty: L -> bool,
    hash: seq<string> -> string)

  datatype State<F> = State(fs: F, cfg: Config, args: Args)

  /** `ExecuteCommand`, for the commands of a stage and for their cached versions. */
  function Exec<F, L>(w: World<F, L>, c: Command<L>, s: State<F>): State<F> {
    match c
    case Meta(text) =>
      State(s.fs, Config(w.metaEnv(text, s.cfg.env, s.args), w.newRest(text, s.cfg, s.args)),
            w.metaArgs(text, s.cfg.env, s.args))
    case Workdir(text) =>
      s.(fs := w.newFs(text, s.cfg, s.args, s.fs), cfg := s.cfg.(rest := w.newRest(text, s.cfg, s.args)))
    case CachingRun(_, layer) => s.(fs := w.apply(s.fs, layer))
    case CachingCopy(_, layer) => s.(fs := w.apply(s.fs, layer))
    case _ => s.(fs := w.newFs(c.text, s.cfg, s.args, s.fs))
  }

  /** What each kind of command does to config and args: only metadata commands and WORKDIR change the config. */
  lemma ExecConfig<F, L>(w: World<F, L>, c: Command<L>, s: State<F>)
    ensures var t := Exec(w, c, s);
      && t.cfg.env == (if c.Meta? then w.metaEnv(c.text, s.cfg.env, s.args) else s.cfg.env)
      && t.cfg.rest == (if c.Meta? || c.Workdir? then w.newRest(c.text, s.cfg, s.args) else s.cfg.rest)
      && t.args == (if c.Meta? then w.metaArgs(c.text, s.cfg.env, s.args) else s.args)
      && t.fs == if c.Meta? then s.fs else if c.IsCached() then w.apply(s.fs, c.layer) else w.newFs(c.text, s.cfg, s.args, s.fs)
  {
  }

  /** The state before command `i`. */
  function StateAt<F, L>(w: World<F, L>, cmds: seq<Command<L>>, s: State<F>, i: nat): State<F>
    requires i <= |cmds|
  {
    if i == 0 then s else Exec(w, cmds[i - 1], StateAt(w, cmds, s, i - 1))
  }

  /** The part of the state that keys depend on. */
  datatype View = View(env: seq<string>, args: Args)

  function ViewOf<F>(s: State<F>): View {
    View(s.cfg.env, s.args)
  }

  /** What the first pass tracks: only metadata commands are run, and the rest is thrown away. */
  function ViewStep<F, L>(w: World<F, L>, c: Command<L>, v: View): View {
    if c.MetadataOnly() then View(w.metaEnv(c.text, v.env, v.args), w.metaArgs(c.text, v.env, v.args)) else v
  }

  function ViewAt<F, L>(w: World<F, L>, cmds: seq<Command<L>>, v: View, i: nat): View
    requires i <= |cmds|
  {
    if i == 0 then v else ViewStep(w, cmds[i - 1], ViewAt(w, cmds, v, i - 1))
  }

  function FilesUsed<F, L>(w: World<F, L>, c: Command<L>, v: View): seq<string> {
    if c.UsesContext() then w.contextFiles(c.text, v.env, v.args) else []
  }

  /** `AddPath` over a list of files: excluded ones add nothing. */
  function FileKeys<F, L>(w: World<F, L>, files: seq<string>): seq<string> {
    if files == [] then []
    else
      var rest := FileKeys(w, files[..|files| - 1]);
      match w.fileHash(files[|files| - 1])
      case None => rest
      case Some(h) => rest + [h]
  }

  /** The keys are the hashes of the files one after the other, leaving out those that have none. */
  lemma {:induction false} FileKeysExact<F, L>(w: World<F, L>, files: seq<string>, more: seq<string>, f: string)
    ensures FileKeys(w, files + more) == FileKeys(w, files) + FileKeys(w, more)
    ensures FileKeys(w, [f]) == match w.fileHash(f) { case Some(h) => [h] case None => [] }
    ensures FileKeys(w, []) == []
    decreases |more|
  {
    assert [f][..0] == [];
    if more == [] {
      assert files + more == files;
    } else {
      assert (files + more)[..|files + more| - 1] == files + more[..|more| - 1];
      FileKeysExact(w, files, more[..|more| - 1], f);
    }
  }

  /** The command's block of the key. */
  function BlockOf<F, L>(w: World<F, L>, c: Command<L>, v: View): Block {
    Block(if c.IsArgsEnvsRequiredInCache() then Sorted(w.replacementEnvs(v.args, v.env)) else [],
          c.text, FileKeys(w, FilesUsed(w, c, v)))
  }

  /** The key list after the first `i` commands, tracked over views. */
  function KeysAt<F, L>(w: World<F, L>, cmds: seq<Command<L>>, v: View, keys: seq<string>, i: nat): seq<string>
    requires i <= |cmds|
  {
    if i == 0 then keys
    else KeysAt(w, cmds, v, keys, i - 1) + Encode(BlockOf(w, cmds[i - 1], ViewAt(w, cmds, v, i - 1)))
  }

  /** The cache key of command `i`. */
  function KeyOf<F, L>(w: World<F, L>, cmds: seq<Command<L>>, v: View, keys: seq<string>, i: nat): string
    requires i < |cmds|
  {
    w.hash(KeysAt(w, cmds, v, keys, i + 1))
  }

  /** The key list after the first `i` commands, tracked over the states of the second pass. */
  function BuildKeysAt<F, L>(w: World<F, L>, cmds: seq<Command<L>>, s: State<F>, keys: seq<string>, i: nat): seq<string>
    requires i <= |cmds|
  {
    if i == 0 then keys
    else BuildKeysAt(w, cmds, s, keys, i - 1) + Encode(BlockOf(w, cmds[i - 1], ViewOf(StateAt(w, cmds, s, i - 1))))
  }

  /** Every cacheable command so far has its layer in the cache. */
  ghost predicate NoMissBefore<F, L>(w: World<F, L>, cache: map<string, L>, cmds: seq<Command<L>>, v: View, keys: seq<string>, i: nat)
    requires i <= |cmds|
  {
    forall j :: 0 <= j < i && cmds[j].ShouldCacheOutput() ==> KeyOf(w, cmds, v, keys, j) in cache
  }

  /** The command is served from the cache. */
  ghost predicate Hit<F, L>(w: World<F, L>, cache: map<string, L>, cmds: seq<Command<L>>, v: View, keys: seq<string>, i: nat)
    requires i < |cmds|
  {
    cmds[i].ShouldCacheOutput() && NoMissBefore(w, cache, cmds, v, keys, i + 1)
  }

  /** The command that the first pass leaves at index `i`: hits are swapped, everything else is as before. */
  ghost predicate Swapped<F, L>(w: World<F, L>, cache: map<string, L>, cmds: seq<Command<L>>, v: View, keys: seq<string>,
                                i: nat, after: Command<L>)
    requires i < |cmds|
  {
    if Hit(w, cache, cmds, v, keys, i) then
      KeyOf(w, cmds, v, keys, i) in cache && after == cmds[i].CacheCommand(cache[KeyOf(w, cmds, v, keys, i)])
    else after == cmds[i]
  }

  ghost predicate Optimized<F, L>(w: World<F, L>, cache: map<string, L>, cmds: seq<Command<L>>, v: View,
                                  keys: seq<string>, after: seq<Command<L>>)
  {
    |after| == |cmds| && forall i :: 0 <= i < |cmds| ==> Swapped(w, cache, cmds, v, keys, i, after[i])
  }

  /** No command is a cached version yet. */
  ghost predicate Fresh<L>(cmds: seq<Command<L>>) {
    forall i :: 0 <= i < |cmds| ==> !cmds[i].IsCached()
  }

  // ---------------------------------------------------------------------------------------------
  // Keys
  // ---------------------------------------------------------------------------------------------

  /** A cached version contributes the same to the key and to the view as the command it stands for. */
  ghost predicate StandsFor<L>(c: Command<L>, d: Command<L>) {
    d == c || (c.ShouldCacheOutput() && d.IsCached() && d == c.CacheCommand(d.layer))
  }

  lemma SameContribution<F, L>(w: World<F, L>, c: Command<L>, d: Command<L>, v: View)
    requires StandsFor(c, d)
    ensures BlockOf(w, d, v) == BlockOf(w, c, v) && ViewStep(w, d, v) == ViewStep(w, c, v)
  {
  }

  lemma OptimizedStandsFor<F, L>(w: World<F, L>, cache: map<string, L>, cmds: seq<Command<L>>, v: View,
                                 keys: seq<string>, after: seq<Command<L>>, i: nat)
    requires Optimized(w, cache, cmds, v, keys, after) && i < |cmds|
    ensures StandsFor(cmds[i], after[i])
  {
  }

  lemma OptimizedAllStandFor<F, L>(w: World<F, L>, cache: map<string, L>, cmds: seq<Command<L>>, v: View,
                                   keys: seq<string>, after: seq<Command<L>>)
    requires Optimized(w, cache, cmds, v, keys, after)
    ensures AllStandFor(cmds, after)
  {
    forall i | 0 <= i < |cmds| ensures StandsFor(cmds[i], after[i]) {
      OptimizedStandsFor(w, cache, cmds, v, keys, after, i);
    }
  }

  /** Running a command moves the environment and the args exactly as the first pass does. */
  lemma ExecView<F, L>(w: World<F, L>, c: Command<L>, s: State<F>)
    ensures ViewOf(Exec(w, c, s)) == ViewStep(w, c, ViewOf(s))
  {
  }

  ghost predicate AllStandFor<L>(cmds: seq<Command<L>>, after: seq<Command<L>>) {
    |after| == |cmds| && forall i :: 0 <= i < |cmds| ==> StandsFor(cmds[i], after[i])
  }

  lemma {:induction false} StateTracksView<F, L>(w: World<F, L>, cmds: seq<Command<L>>, after: seq<Command<L>>, s: State<F>, i: nat)
    requires AllStandFor(cmds, after) && i <= |cmds|
    ensures ViewOf(StateAt(w, after, s, i)) == ViewAt(w, cmds, ViewOf(s), i)
  {
    if i > 0 {
      StateTracksView(w, cmds, after, s, i - 1);
      ExecView(w, after[i - 1], StateAt(w, after, s, i - 1));
      SameContribution(w, cmds[i - 1], after[i - 1], ViewAt(w, cmds, ViewOf(s), i - 1));
    }
  }

  /**
   * Read and write keys agree: the second pass arrives at the key list of the first one at every
   * command, although it runs all commands and some of them are cached versions by then.
   */
  lemma {:induction false} KeysAgree<F, L>(w: World<F, L>, cmds: seq<Command<L>>, after: seq<Command<L>>, s: State<F>,
                                           keys: seq<string>, i: nat)
    requires AllStandFor(cmds, after) && i <= |cmds|
    ensures BuildKeysAt(w, after, s, keys, i) == KeysAt(w, cmds, ViewOf(s), keys, i)
  {
    hide BlockOf, Encode, StateAt, ViewAt;
    if i > 0 {
      KeysAgree(w, cmds, after, s, keys, i - 1);
      StateTracksView(w, cmds, after, s, i - 1);
      SameContribution(w, cmds[i - 1], after[i - 1], ViewAt(w, cmds, ViewOf(s), i - 1));
    }
  }

  /** The order in which args and envs come does not show in a key. */
  lemma KeysCanonical<F, L>(w: World<F, L>, c: Command<L>, v: View, u: View)
    requires multiset(w.replacementEnvs(v.args, v.env)) == multiset(w.replacementEnvs(u.args, u.env))
    requires FilesUsed(w, c, v) == FilesUsed(w, c, u)
    ensures Encode(BlockOf(w, c, v)) == Encode(BlockOf(w, c, u))
  {
    SortedCanonical(w.replacementEnvs(v.args, v.env), w.replacementEnvs(u.args, u.env));
  }

  /** Commands whose effect depends on environment and args: RUN, and its cached version. */
  ghost predicate RunsProgram<L>(c: Command<L>) {
    c.Run? || c.RunMarker? || c.CachingRun?
  }

  /** Commands that read the build context: COPY, ADD, and the cached version of COPY. */
  ghost predicate CopiesFiles<L>(c: Command<L>) {
    c.Copy? || c.Add? || c.CachingCopy?
  }

  /** The hashes of the context files that a command reads. */
  ghost function HashesRead<F, L>(w: World<F, L>, c: Command<L>, v: View): seq<string> {
    FileKeys(w, w.contextFiles(c.text, v.env, v.args))
  }

  /**
   * What a key tells of a command: its text; for RUN the environment and args that it can see, repeats
   * included and order aside; for COPY and ADD the hashes of the files that it reads; and nothing else.
   */
  lemma BlocksExact<F, L>(w: World<F, L>, c: Command<L>, v: View, x: World<F, L>, d: Command<L>, u: View)
    requires (RunsProgram(c) <==> RunsProgram(d)) && (CopiesFiles(c) <==> CopiesFiles(d))
    ensures BlockOf(w, c, v) == BlockOf(x, d, u) <==>
      && c.text == d.text
      && (RunsProgram(c) ==> multiset(w.replacementEnvs(v.args, v.env)) == multiset(x.replacementEnvs(u.args, u.env)))
      && (CopiesFiles(c) ==> HashesRead(w, c, v) == HashesRead(x, d, u))
  {
    SortedExact(w.replacementEnvs(v.args, v.env), x.replacementEnvs(u.args, u.env));
    hide Sorted;
    FileKeysExact(w, [], [], "");
    FileKeysExact(x, [], [], "");
  }

  // ---------------------------------------------------------------------------------------------
  // Hits and misses
  // ---------------------------------------------------------------------------------------------

  /** Hits form a prefix of the cacheable commands. */
  lemma HitsFormPrefix<F, L>(w: World<F, L>, cache: map<string, L>, cmds: seq<Command<L>>, v: View, keys: seq<string>, i: nat, j: nat)
    requires i <= j < |cmds| && Hit(w, cache, cmds, v, keys, j) && cmds[i].ShouldCacheOutput()
    ensures Hit(w, cache, cmds, v, keys, i)
  {
    forall k | 0 <= k < i + 1 && cmds[k].ShouldCacheOutput() ensures KeyOf(w, cmds, v, keys, k) in cache {
      assert k < j + 1;
    }
  }

  /** The command that makes `build` take its initial snapshot: RUN, when not cached. */
  ghost predicate TakesInitialSnapshot<L>(c: Command<L>) {
    !c.IsCached() && !c.ProvidesFilesToSnapshot()
  }

  /**
   * A cached command can come after the initial snapshot exactly when a RUN whose layers are not
   * cacheable precedes a hit.
   */
  lemma CachedAfterInitial<F, L>(w: World<F, L>, cache: map<string, L>, cmds: seq<Command<L>>, v: View,
                                 keys: seq<string>, after: seq<Command<L>>, i: nat, j: nat)
    requires Fresh(cmds) && Optimized(w, cache, cmds, v, keys, after) && i < j < |cmds|
    ensures TakesInitialSnapshot(after[i]) && after[j].IsCached()
       <==> cmds[i].Run? && !cmds[i].shdCache && Hit(w, cache, cmds, v, keys, j)
  {
    if Hit(w, cache, cmds, v, keys, j) && cmds[i].Run? && cmds[i].shdCache {
      HitsFormPrefix(w, cache, cmds, v, keys, i, j);
    }
  }

  // ---------------------------------------------------------------------------------------------
  // Layers
  // ---------------------------------------------------------------------------------------------

  /**
   * The files that a command lists when it has run: RUN has no list, which asks for a snapshot of
   * everything, a metadata command has an empty one, and the others list what they touch.
   */
  function FilesToSnapshot<F, L>(w: World<F, L>, c: Command<L>, s: State<F>): Option<seq<string>> {
    if c.Run? then None else if c.Meta? then Some([]) else w.listed(c.text, s.cfg, s.args, s.fs)
  }

  /** The layer of a command that runs in the state; an empty list makes none. */
  function Snapped<F, L>(w: World<F, L>, c: Command<L>, s: State<F>): Option<L> {
    var files := FilesToSnapshot(w, c, s);
    if files == Some([]) then None else Some(w.snapshot(files, s.fs, Exec(w, c, s).fs))
  }

  /** The layers that one command appends to the image. */
  function Appended<F, L>(w: World<F, L>, c: Command<L>, s: State<F>): seq<L> {
    if c.IsCached() then [c.layer]
    else
      match Snapped(w, c, s)
      case None => []
      case Some(l) => if w.isEmpty(l) then [] else [l]
  }

  /** The layers appended to the image by the first `i` commands. */
  function LayersAt<F, L>(w: World<F, L>, cmds: seq<Command<L>>, s: State<F>, i: nat): seq<L>
    requires i <= |cmds|
  {
    if i == 0 then [] else LayersAt(w, cmds, s, i - 1) + Appended(w, cmds[i - 1], StateAt(w, cmds, s, i - 1))
  }

  /** No layer of a command that was run is empty. */
  lemma {:induction false} NoEmptyLayers<F, L>(w: World<F, L>, cmds: seq<Command<L>>, s: State<F>, i: nat)
    requires i <= |cmds|
    ensures forall l :: l in LayersAt(w, cmds, s, i) ==> !w.isEmpty(l) || exists j :: 0 <= j < i && cmds[j].IsCached() && cmds[j].layer == l
  {
    hide Snapped;
    if i > 0 {
      NoEmptyLayers(w, cmds, s, i - 1);
    }
  }

  /** What one command pushes to the cache, under the key list that it completes: its layer, if there is one. */
  function Pushes<F, L>(w: World<F, L>, c: Command<L>, keys: seq<string>, s: State<F>): seq<(string, L)> {
    if !c.ShouldCacheOutput() then []
    else
      match Snapped(w, c, s)
      case None => []
      case Some(l) => [(w.hash(keys), l)]
  }

  /** What the first `i` commands push to the cache. */
  function PushesAt<F, L>(w: World<F, L>, cmds: seq<Command<L>>, s: State<F>, keys: seq<string>, i: nat): seq<(string, L)>
    requires i <= |cmds|
  {
    if i == 0 then []
    else PushesAt(w, cmds, s, keys, i - 1) + Pushes(w, cmds[i - 1], BuildKeysAt(w, cmds, s, keys, i), StateAt(w, cmds, s, i - 1))
  }

  function Flatten<F, L>(w: World<F, L>, fs: F, layers: seq<L>): F {
    if layers == [] then fs else w.apply(Flatten(w, fs, layers[..|layers| - 1]), layers[|layers| - 1])
  }

  lemma FlattenAppend<F, L>(w: World<F, L>, fs: F, layers: seq<L>, l: L)
    ensures Flatten(w, fs, layers + [l]) == w.apply(Flatten(w, fs, layers), l)
  {
    assert (layers + [l])[..|layers|] == layers;
  }

  lemma {:induction false} FlattenBoth<F, L>(w: World<F, L>, fs: F, layers: seq<L>, more: seq<L>)
    ensures Flatten(w, fs, layers + more) == Flatten(w, Flatten(w, fs, layers), more)
    decreases |more|
  {
    if more == [] {
      assert layers + more == layers;
    } else {
      var but := more[..|more| - 1];
      assert layers + more == (layers + but) + [more[|more| - 1]];
      FlattenAppend(w, fs, layers + but, more[|more| - 1]);
      FlattenBoth(w, fs, layers, but);
    }
  }

  /** Some command needs the file system of the base image, or another stage copies from this one. */
  predicate Unpacks<L>(cmds: seq<Command<L>>, crossStage: bool) {
    crossStage || exists i :: 0 <= i < |cmds| && cmds[i].RequiresUnpackedFS()
  }

  /** The snapshot of a command is right: its layer takes the state to the next, and without one nothing has changed. */
  ghost predicate SnapshotRight<F, L>(w: World<F, L>, c: Command<L>, s: State<F>) {
    var next := Exec(w, c, s).fs;
    match Snapped(w, c, s)
    case None => next == s.fs
    case Some(l) => w.apply(s.fs, l) == next && (w.isEmpty(l) ==> next == s.fs)
  }

  /** Snapshots along the uncached run are right. */
  ghost predicate SnapshotsRight<F, L>(w: World<F, L>, cmds: seq<Command<L>>, s: State<F>) {
    forall i :: 0 <= i < |cmds| ==> SnapshotRight(w, cmds[i], StateAt(w, cmds, s, i))
  }

  /** The layer takes the state before command `i` to the state after it. */
  ghost predicate LayerRight<F, L>(w: World<F, L>, l: L, cmds: seq<Command<L>>, s: State<F>, i: nat)
    requires i < |cmds|
  {
    w.apply(StateAt(w, cmds, s, i).fs, l) == StateAt(w, cmds, s, i + 1).fs
  }

  /** Every cached layer is right for the state that has its key. */
  ghost predicate CacheRight<F, L>(w: World<F, L>, cache: map<string, L>, cmds: seq<Command<L>>, s: State<F>, keys: seq<string>) {
    forall i :: 0 <= i < |cmds| && cmds[i].ShouldCacheOutput() && KeyOf(w, cmds, ViewOf(s), keys, i) in cache ==>
      LayerRight(w, cache[KeyOf(w, cmds, ViewOf(s), keys, i)], cmds, s, i)
  }

  /** A stage that either has its file system or does not touch it other than through the cache. */
  ghost predicate Grounded<L>(after: seq<Command<L>>, crossStage: bool) {
    Unpacks(after, crossStage) || forall i :: 0 <= i < |after| ==> !after[i].Workdir?
  }

  function StartOf<F, L>(after: seq<Command<L>>, crossStage: bool, s: State<F>, bare: F): State<F> {
    if Unpacks(after, crossStage) then s else s.(fs := bare)
  }

  /** The config never depends on the cache, nor on the file system. */
  lemma {:induction false} ConfigAgrees<F, L>(w: World<F, L>, cmds: seq<Command<L>>, after: seq<Command<L>>,
                                              s: State<F>, t: State<F>, i: nat)
    requires AllStandFor(cmds, after) && i <= |cmds| && s.cfg == t.cfg && s.args == t.args
    ensures StateAt(w, after, t, i).cfg == StateAt(w, cmds, s, i).cfg
    ensures StateAt(w, after, t, i).args == StateAt(w, cmds, s, i).args
  {
    if i > 0 {
      ConfigAgrees(w, cmds, after, s, t, i - 1);
      assert StandsFor(cmds[i - 1], after[i - 1]);
    }
  }

  /** A cached command appends the cached layer, which is right. */
  lemma CachedLayerStep<F, L>(w: World<F, L>, cache: map<string, L>, cmds: seq<Command<L>>, after: seq<Command<L>>,
                              s: State<F>, keys: seq<string>, i: nat)
    requires Optimized(w, cache, cmds, ViewOf(s), keys, after) && i < |cmds| && Fresh(cmds)
    requires CacheRight(w, cache, cmds, s, keys) && after[i].IsCached()
    ensures LayerRight(w, after[i].layer, cmds, s, i)
  {
    hide LayerRight, KeyOf;
    assert Hit(w, cache, cmds, ViewOf(s), keys, i);
  }

  /** In its own state, the swapped command does what the original does. */
  lemma SwappedRunsTheSame<F, L>(w: World<F, L>, cache: map<string, L>, cmds: seq<Command<L>>, after: seq<Command<L>>,
                                 s: State<F>, keys: seq<string>, i: nat)
    requires Optimized(w, cache, cmds, ViewOf(s), keys, after) && i < |cmds|
    requires Fresh(cmds) && CacheRight(w, cache, cmds, s, keys)
    ensures Exec(w, after[i], StateAt(w, cmds, s, i)) == Exec(w, cmds[i], StateAt(w, cmds, s, i))
  {
    assert Swapped(w, cache, cmds, ViewOf(s), keys, i, after[i]);
    OptimizedStandsFor(w, cache, cmds, ViewOf(s), keys, after, i);
    if after[i].IsCached() {
      CachedLayerStep(w, cache, cmds, after, s, keys, i);
    }
    hide KeyOf, Hit, Optimized, CacheRight;
  }

  /** With its file system, a stage with cached commands goes through the states of the uncached one. */
  lemma {:induction false} StatesAgree<F, L>(w: World<F, L>, cache: map<string, L>, cmds: seq<Command<L>>, after: seq<Command<L>>,
                                             s: State<F>, keys: seq<string>, i: nat)
    requires Optimized(w, cache, cmds, ViewOf(s), keys, after) && i <= |cmds|
    requires Fresh(cmds) && CacheRight(w, cache, cmds, s, keys)
    ensures StateAt(w, after, s, i) == StateAt(w, cmds, s, i)
  {
    if i > 0 {
      StatesAgree(w, cache, cmds, after, s, keys, i - 1);
      SwappedRunsTheSame(w, cache, cmds, after, s, keys, i - 1);
      hide Optimized, CacheRight, Exec;
    }
  }

  /** A command that was run appends a layer, or nothing if nothing changed. */
  lemma BuiltLayerStep<F, L>(w: World<F, L>, cmds: seq<Command<L>>, s: State<F>, i: nat)
    requires i < |cmds| && SnapshotsRight(w, cmds, s) && !cmds[i].IsCached()
    ensures Flatten(w, StateAt(w, cmds, s, i).fs, Appended(w, cmds[i], StateAt(w, cmds, s, i))) == StateAt(w, cmds, s, i + 1).fs
  {
    assert SnapshotRight(w, cmds[i], StateAt(w, cmds, s, i));
    var snapped, x := Snapped(w, cmds[i], StateAt(w, cmds, s, i)), StateAt(w, cmds, s, i).fs;
    FlattenNothing(w, x);
    if snapped.Some? {
      FlattenAppend(w, x, [], snapped.value);
      assert [] + [snapped.value] == [snapped.value];
    }
  }

  /** What command `i` appends, run where it is run, takes the uncached state before it to the one after it. */
  ghost predicate StepLevel<F, L>(w: World<F, L>, cmds: seq<Command<L>>, after: seq<Command<L>>, s: State<F>, t: State<F>, i: nat)
    requires |after| == |cmds| && i < |cmds|
  {
    Flatten(w, StateAt(w, cmds, s, i).fs, Appended(w, after[i], StateAt(w, after, t, i))) == StateAt(w, cmds, s, i + 1).fs
  }

  /** Every WORKDIR does, wherever it runs. */
  ghost predicate WorkdirsLevel<F, L>(w: World<F, L>, cmds: seq<Command<L>>, after: seq<Command<L>>, s: State<F>, t: State<F>) {
    |after| == |cmds| && forall i :: 0 <= i < |cmds| && after[i].Workdir? ==> StepLevel(w, cmds, after, s, t, i)
  }

  /** The flattened image is level with the uncached run before each command and at the end. */
  ghost predicate AlwaysLevel<F, L>(w: World<F, L>, cmds: seq<Command<L>>, after: seq<Command<L>>, s: State<F>, t: State<F>) {
    |after| == |cmds| &&
    forall i :: 0 <= i <= |cmds| ==> Flatten(w, s.fs, LayersAt(w, after, t, i)) == StateAt(w, cmds, s, i).fs
  }

  /** A command that is no WORKDIR on a bare disk appends what takes one uncached state to the next. */
  lemma OtherLevel<F, L>(w: World<F, L>, cache: map<string, L>, cmds: seq<Command<L>>, after: seq<Command<L>>,
                         s: State<F>, t: State<F>, keys: seq<string>, crossStage: bool, i: nat)
    requires Optimized(w, cache, cmds, ViewOf(s), keys, after) && i < |cmds| && Fresh(cmds)
    requires CacheRight(w, cache, cmds, s, keys) && SnapshotsRight(w, cmds, s)
    requires (Unpacks(after, crossStage) ==> t == s) && (Unpacks(after, crossStage) || !after[i].Workdir?)
    ensures |after| == |cmds| && StepLevel(w, cmds, after, s, t, i)
  {
    assert |after| == |cmds|;
    hide Optimized, CacheRight, SnapshotsRight, StateAt, Flatten;
    var c, x := after[i], StateAt(w, cmds, s, i).fs;
    OptimizedStandsFor(w, cache, cmds, ViewOf(s), keys, after, i);
    FlattenNothing(w, x);
    if c.IsCached() {
      FlattenAppend(w, x, [], c.layer);
      assert [] + [c.layer] == [c.layer];
      CachedLayerStep(w, cache, cmds, after, s, keys, i);
    } else {
      BuiltLayerStep(w, cmds, s, i);
      if !c.MetadataOnly() {
        assert Unpacks(after, crossStage);
        StatesAgree(w, cache, cmds, after, s, keys, i);
      }
    }
  }

  lemma FlattenNothing<F, L>(w: World<F, L>, fs: F)
    ensures Flatten(w, fs, []) == fs
  {
  }

  lemma NoLayersYet<F, L>(w: World<F, L>, cmds: seq<Command<L>>, after: seq<Command<L>>, s: State<F>, t: State<F>)
    ensures LayersAt(w, after, t, 0) == [] && StateAt(w, cmds, s, 0) == s
  {
  }

  lemma NextLayers<F, L>(w: World<F, L>, after: seq<Command<L>>, s: State<F>, t: State<F>, i: nat)
    requires i < |after|
    ensures Flatten(w, s.fs, LayersAt(w, after, t, i + 1))
         == Flatten(w, Flatten(w, s.fs, LayersAt(w, after, t, i)), Appended(w, after[i], StateAt(w, after, t, i)))
  {
    hide Flatten, Appended, StateAt;
    FlattenBoth(w, s.fs, LayersAt(w, after, t, i), Appended(w, after[i], StateAt(w, after, t, i)));
  }

  lemma {:induction false} LayersAgree<F, L>(w: World<F, L>, cache: map<string, L>, cmds: seq<Command<L>>, after: seq<Command<L>>,
                                             s: State<F>, t: State<F>, keys: seq<string>, crossStage: bool, i: nat)
    requires Optimized(w, cache, cmds, ViewOf(s), keys, after) && i <= |cmds| && Fresh(cmds)
    requires CacheRight(w, cache, cmds, s, keys) && SnapshotsRight(w, cmds, s)
    requires (Unpacks(after, crossStage) ==> t == s) && WorkdirsLevel(w, cmds, after, s, t)
    ensures Flatten(w, s.fs, LayersAt(w, after, t, i)) == StateAt(w, cmds, s, i).fs
    decreases i
  {
    hide *;
    SameLength(w, cache, cmds, ViewOf(s), keys, after);
    if i == 0 {
      NoLayersYet(w, cmds, after, s, t);
      FlattenNothing(w, s.fs);
    } else {
      LayersAgree(w, cache, cmds, after, s, t, keys, crossStage, i - 1);
      CommandLevel(w, cache, cmds, after, s, t, keys, crossStage, i - 1);
      StillLevel(w, cmds, after, s, t, i - 1);
    }
  }

  lemma SameLength<F, L>(w: World<F, L>, cache: map<string, L>, cmds: seq<Command<L>>, v: View, keys: seq<string>, after: seq<Command<L>>)
    requires Optimized(w, cache, cmds, v, keys, after)
    ensures |after| == |cmds|
  {
  }

  lemma CommandLevel<F, L>(w: World<F, L>, cache: map<string, L>, cmds: seq<Command<L>>, after: seq<Command<L>>,
                           s: State<F>, t: State<F>, keys: seq<string>, crossStage: bool, i: nat)
    requires Optimized(w, cache, cmds, ViewOf(s), keys, after) && i < |cmds| && Fresh(cmds)
    requires CacheRight(w, cache, cmds, s, keys) && SnapshotsRight(w, cmds, s)
    requires (Unpacks(after, crossStage) ==> t == s) && WorkdirsLevel(w, cmds, after, s, t)
    ensures |after| == |cmds| && StepLevel(w, cmds, after, s, t, i)
  {
    hide Optimized, CacheRight, SnapshotsRight, Unpacks, StepLevel;
    if !after[i].Workdir? {
      OtherLevel(w, cache, cmds, after, s, t, keys, crossStage, i);
    }
  }

  lemma StillLevel<F, L>(w: World<F, L>, cmds: seq<Command<L>>, after: seq<Command<L>>, s: State<F>, t: State<F>, i: nat)
    requires |after| == |cmds| && i < |cmds| && StepLevel(w, cmds, after, s, t, i)
    requires Flatten(w, s.fs, LayersAt(w, after, t, i)) == StateAt(w, cmds, s, i).fs
    ensures Flatten(w, s.fs, LayersAt(w, after, t, i + 1)) == StateAt(w, cmds, s, i + 1).fs
  {
    hide StateAt, LayersAt, Flatten, Appended;
    NextLayers(w, after, s, t, i);
  }

  /**
   * The flattened image of a stage with cached commands is level with the uncached run all along if and
   * only if each WORKDIR, run where it is run, appends what it would append on the real file system.
   */
  lemma LayersExact<F, L>(w: World<F, L>, cache: map<string, L>, cmds: seq<Command<L>>, after: seq<Command<L>>,
                          s: State<F>, bare: F, keys: seq<string>, crossStage: bool)
    requires Fresh(cmds) && Optimized(w, cache, cmds, ViewOf(s), keys, after)
    requires CacheRight(w, cache, cmds, s, keys) && SnapshotsRight(w, cmds, s)
    ensures var t := StartOf(after, crossStage, s, bare);
      AlwaysLevel(w, cmds, after, s, t) <==> WorkdirsLevel(w, cmds, after, s, t)
  {
    var t := StartOf(after, crossStage, s, bare);
    assert |after| == |cmds|;
    hide Optimized, CacheRight, SnapshotsRight, StateAt, LayersAt, Flatten, Unpacks, Appended;
    if WorkdirsLevel(w, cmds, after, s, t) {
      forall i | 0 <= i <= |cmds| ensures Flatten(w, s.fs, LayersAt(w, after, t, i)) == StateAt(w, cmds, s, i).fs {
        LayersAgree(w, cache, cmds, after, s, t, keys, crossStage, i);
      }
    }
    if AlwaysLevel(w, cmds, after, s, t) {
      forall i | 0 <= i < |cmds| && after[i].Workdir? ensures StepLevel(w, cmds, after, s, t, i) {
        NextLayers(w, after, s, t, i);
        assert Flatten(w, s.fs, LayersAt(w, after, t, i)) == StateAt(w, cmds, s, i).fs;
      }
    }
  }

  /** A stage that is unpacked, or has no WORKDIR, meets the condition. */
  lemma GroundedIsLevel<F, L>(w: World<F, L>, cache: map<string, L>, cmds: seq<Command<L>>, after: seq<Command<L>>,
                              s: State<F>, bare: F, keys: seq<string>, crossStage: bool)
    requires Fresh(cmds) && Optimized(w, cache, cmds, ViewOf(s), keys, after)
    requires CacheRight(w, cache, cmds, s, keys) && SnapshotsRight(w, cmds, s) && Grounded(after, crossStage)
    ensures WorkdirsLevel(w, cmds, after, s, StartOf(after, crossStage, s, bare))
  {
    var t := StartOf(after, crossStage, s, bare);
    assert |after| == |cmds|;
    hide Optimized, CacheRight, SnapshotsRight, StepLevel, Unpacks;
    forall i | 0 <= i < |cmds| && after[i].Workdir? ensures StepLevel(w, cmds, after, s, t, i) {
      OtherLevel(w, cache, cmds, after, s, t, keys, crossStage, i);
    }
  }

  /**
   * Cache refinement: whichever keys are in the cache, a stage built with it has the config and the
   * flattened image of the stage built without it, if WORKDIR is right where it runs.
   */
  lemma CacheRefinement<F, L>(w: World<F, L>, cache: map<string, L>, cmds: seq<Command<L>>, after: seq<Command<L>>,
                              s: State<F>, bare: F, keys: seq<string>, crossStage: bool)
    requires Fresh(cmds) && Optimized(w, cache, cmds, ViewOf(s), keys, after)
    requires CacheRight(w, cache, cmds, s, keys) && SnapshotsRight(w, cmds, s)
    requires WorkdirsLevel(w, cmds, after, s, StartOf(after, crossStage, s, bare))
    ensures var t, n := StartOf(after, crossStage, s, bare), |cmds|;
      && StateAt(w, after, t, n).cfg == StateAt(w, cmds, s, n).cfg
      && Flatten(w, s.fs, LayersAt(w, after, t, n)) == StateAt(w, cmds, s, n).fs
  {
    var t, n := StartOf(after, crossStage, s, bare), |cmds|;
    OptimizedAllStandFor(w, cache, cmds, ViewOf(s), keys, after);
    hide WorkdirsLevel, Optimized, CacheRight, SnapshotsRight, StateAt, LayersAt, Flatten, Unpacks;
    ConfigAgrees(w, cmds, after, s, t, n);
    LayersAgree(w, cache, cmds, after, s, t, keys, crossStage, n);
  }

  // ---------------------------------------------------------------------------------------------
  // Many builds over one cache
  // ---------------------------------------------------------------------------------------------

  /** A stage to be built: its build context, its commands, the state its base image leaves, its first key. */
  datatype Stage<!F, !L> = Stage(world: World<F, L>, cmds: seq<Command<L>>, start: State<F>, keys: seq<string>)
  {
    function Key(i: nat): string
      requires i < |cmds|
    {
      KeyOf(world, cmds, ViewOf(start), keys, i)
    }

    /** The list that the key of command `i` is the hash of. */
    function KeyList(i: nat): seq<string>
      requires i < |cmds|
    {
      KeysAt(world, cmds, ViewOf(start), keys, i + 1)
    }

    /** The state before command `i` when no cache is used. */
    function Before(i: nat): State<F>
      requires i <= |cmds|
    {
      StateAt(world, cmds, start, i)
    }

    function BlockAt(i: nat): Block
      requires i < |cmds|
    {
      BlockOf(world, cmds[i], ViewAt(world, cmds, ViewOf(start), i))
    }

    function Blocks(i: nat): (bs: seq<Block>)
      requires i <= |cmds|
      ensures |bs| == i
    {
      if i == 0 then [] else Blocks(i - 1) + [BlockAt(i - 1)]
    }
  }

  /** The two commands start from the same file system and leave the same one. */
  ghost predicate SameStep<F, L>(g: Stage<F, L>, i: nat, h: Stage<F, L>, j: nat)
    requires i < |g.cmds| && j < |h.cmds|
  {
    g.Before(i).fs == h.Before(j).fs && g.Before(i + 1).fs == h.Before(j + 1).fs
  }

  /** Equal keys of cacheable commands mean equal file systems before and after the command. */
  ghost predicate KeysIdentify<F, L>(g: Stage<F, L>, h: Stage<F, L>) {
    forall i, j | 0 <= i < |g.cmds| && 0 <= j < |h.cmds| ::
      g.cmds[i].ShouldCacheOutput() && h.cmds[j].ShouldCacheOutput() && g.Key(i) == h.Key(j) ==> SameStep(g, i, h, j)
  }

  ghost predicate RightFor<F, L>(cache: map<string, L>, g: Stage<F, L>) {
    CacheRight(g.world, cache, g.cmds, g.start, g.keys)
  }

  /** The cache after a list of pushes. */
  function Pushed<L>(cache: map<string, L>, pushes: seq<(string, L)>): map<string, L> {
    if pushes == [] then cache
    else Pushed(cache, pushes[..|pushes| - 1])[pushes[|pushes| - 1].0 := pushes[|pushes| - 1].1]
  }

  lemma PushedAppend<L>(cache: map<string, L>, pushes: seq<(string, L)>, p: (string, L))
    ensures Pushed(cache, pushes + [p]) == Pushed(cache, pushes)[p.0 := p.1]
  {
    assert (pushes + [p])[..|pushes|] == pushes;
  }

  lemma SameStepRight<F, L>(g: Stage<F, L>, i: nat, h: Stage<F, L>, j: nat, l: L)
    requires i < |g.cmds| && j < |h.cmds| && SameStep(g, i, h, j) && SnapshotsRight(g.world, g.cmds, g.start)
    requires g.world.apply == h.world.apply && Snapped(g.world, g.cmds[i], g.Before(i)) == Some(l)
    ensures LayerRight(h.world, l, h.cmds, h.start, j)
  {
    hide Snapped, Exec;
    assert SnapshotRight(g.world, g.cmds[i], g.Before(i));
  }

  /** A pushed layer is right for every stage that has its key. */
  lemma PushRight<F, L>(cache: map<string, L>, g: Stage<F, L>, i: nat, h: Stage<F, L>, l: L)
    requires i < |g.cmds| && g.cmds[i].ShouldCacheOutput() && SnapshotsRight(g.world, g.cmds, g.start)
    requires KeysIdentify(g, h) && RightFor(cache, h) && g.world.apply == h.world.apply
    requires Snapped(g.world, g.cmds[i], g.Before(i)) == Some(l)
    ensures RightFor(cache[g.Key(i) := l], h)
  {
    hide SameStep, LayerRight, SnapshotsRight, StateAt, KeyOf, Snapped;
    forall j | 0 <= j < |h.cmds| && h.cmds[j].ShouldCacheOutput() && h.Key(j) in cache[g.Key(i) := l]
      ensures LayerRight(h.world, cache[g.Key(i) := l][h.Key(j)], h.cmds, h.start, j)
    {
      if h.Key(j) == g.Key(i) {
        SameStepRight(g, i, h, j, l);
      }
    }
  }

  /** A command that pushes was built on the real file system, under the key it was looked up with. */
  lemma PushIsReference<F, L>(cache: map<string, L>, g: Stage<F, L>, after: seq<Command<L>>, t: State<F>, crossStage: bool, i: nat)
    requires Fresh(g.cmds) && Optimized(g.world, cache, g.cmds, ViewOf(g.start), g.keys, after) && i < |g.cmds|
    requires AllStandFor(g.cmds, after) && RightFor(cache, g)
    requires (Unpacks(after, crossStage) ==> t == g.start) && ViewOf(t) == ViewOf(g.start)
    requires after[i].ShouldCacheOutput()
    ensures after[i] == g.cmds[i]
    ensures g.world.hash(BuildKeysAt(g.world, after, t, g.keys, i + 1)) == g.Key(i)
    ensures StateAt(g.world, after, t, i) == g.Before(i)
  {
    hide Optimized, CacheRight, StateAt, KeysAt, BuildKeysAt;
    assert after[i].RequiresUnpackedFS();
    assert Unpacks(after, crossStage);
    assert StandsFor(g.cmds[i], after[i]);
    KeysAgree(g.world, g.cmds, after, t, g.keys, i + 1);
    StatesAgree(g.world, cache, g.cmds, after, g.start, g.keys, i);
  }

  /** The pushes of a build keep the cache right, for the stage itself and for any other. */
  lemma {:induction false} PushesKeepRight<F, L>(cache: map<string, L>, g: Stage<F, L>, after: seq<Command<L>>,
                                                 t: State<F>, crossStage: bool, h: Stage<F, L>, i: nat)
    requires Fresh(g.cmds) && Optimized(g.world, cache, g.cmds, ViewOf(g.start), g.keys, after) && i <= |g.cmds|
    requires AllStandFor(g.cmds, after)
    requires RightFor(cache, g) && RightFor(cache, h) && SnapshotsRight(g.world, g.cmds, g.start)
    requires KeysIdentify(g, h) && g.world.apply == h.world.apply
    requires (Unpacks(after, crossStage) ==> t == g.start) && ViewOf(t) == ViewOf(g.start)
    ensures RightFor(Pushed(cache, PushesAt(g.world, after, t, g.keys, i)), h)
  {
    hide RightFor, SnapshotsRight, KeysIdentify, Optimized, BuildKeysAt, KeysAt, StateAt, Pushes, Pushed;
    NothingPushed(g, after, t, cache);
    if i > 0 {
      PushesKeepRight(cache, g, after, t, crossStage, h, i - 1);
      PushStep(cache, g, after, t, crossStage, h, i - 1, PushesAt(g.world, after, t, g.keys, i - 1));
    }
  }

  lemma NothingPushed<F, L>(g: Stage<F, L>, after: seq<Command<L>>, t: State<F>, cache: map<string, L>)
    ensures PushesAt(g.world, after, t, g.keys, 0) == [] && Pushed(cache, []) == cache
  {
  }

  /** One command's push keeps the cache right. */
  lemma PushStep<F, L>(cache: map<string, L>, g: Stage<F, L>, after: seq<Command<L>>, t: State<F>, crossStage: bool,
                       h: Stage<F, L>, i: nat, before: seq<(string, L)>)
    requires Fresh(g.cmds) && Optimized(g.world, cache, g.cmds, ViewOf(g.start), g.keys, after) && i < |g.cmds|
    requires AllStandFor(g.cmds, after)
    requires RightFor(cache, g) && RightFor(Pushed(cache, before), h) && SnapshotsRight(g.world, g.cmds, g.start)
    requires KeysIdentify(g, h) && g.world.apply == h.world.apply
    requires (Unpacks(after, crossStage) ==> t == g.start) && ViewOf(t) == ViewOf(g.start)
    ensures RightFor(Pushed(cache, before + Pushes(g.world, after[i], BuildKeysAt(g.world, after, t, g.keys, i + 1),
                                                   StateAt(g.world, after, t, i))), h)
  {
    assert |after| == |g.cmds|;
    hide RightFor, SnapshotsRight, KeysIdentify, Optimized, BuildKeysAt, KeysAt, StateAt, Snapped, Pushed, AllStandFor, Unpacks;
    var keys, snapped := BuildKeysAt(g.world, after, t, g.keys, i + 1), Snapped(g.world, after[i], StateAt(g.world, after, t, i));
    if after[i].ShouldCacheOutput() && snapped.Some? {
      PushIsReference(cache, g, after, t, crossStage, i);
      PushedAppend(cache, before, (g.world.hash(keys), snapped.value));
      PushRight(Pushed(cache, before), g, i, h, snapped.value);
    } else {
      assert before + [] == before;
    }
  }

  /** One build of a sequence: which stage, what the first pass made of it, and the disk if it is not unpacked. */
  datatype BuildRecord<F, L> = BuildRecord(stage: nat, after: seq<Command<L>>, bare: F, crossStage: bool)

  function StartState<F, L>(g: Stage<F, L>, b: BuildRecord<F, L>): State<F> {
    StartOf(b.after, b.crossStage, g.start, b.bare)
  }

  ghost predicate RecordOk<F, L>(stages: seq<Stage<F, L>>, cache: map<string, L>, b: BuildRecord<F, L>) {
    && b.stage < |stages|
    && var g := stages[b.stage];
    && Optimized(g.world, cache, g.cmds, ViewOf(g.start), g.keys, b.after)
    && WorkdirsLevel(g.world, g.cmds, b.after, g.start, StartState(g, b))
  }

  function CacheAfter<F, L>(stages: seq<Stage<F, L>>, cache: map<string, L>, b: BuildRecord<F, L>): map<string, L>
    requires b.stage < |stages|
  {
    var g := stages[b.stage];
    Pushed(cache, PushesAt(g.world, b.after, StartState(g, b), g.keys, |b.after|))
  }

  /** Each build of the sequence works with the cache that the ones before it left. */
  ghost predicate Builds<F, L>(stages: seq<Stage<F, L>>, cache: map<string, L>, bs: seq<BuildRecord<F, L>>)
    decreases |bs|
  {
    bs != [] ==> RecordOk(stages, cache, bs[0]) && Builds(stages, CacheAfter(stages, cache, bs[0]), bs[1..])
  }

  ghost predicate Universe<F, L>(stages: seq<Stage<F, L>>) {
    && (forall i :: 0 <= i < |stages| ==> Fresh(stages[i].cmds) && SnapshotsRight(stages[i].world, stages[i].cmds, stages[i].start))
    && (forall i, j | 0 <= i < |stages| && 0 <= j < |stages| ::
          KeysIdentify(stages[i], stages[j]) && stages[i].world.apply == stages[j].world.apply)
  }

  ghost predicate AllRight<F, L>(cache: map<string, L>, stages: seq<Stage<F, L>>) {
    forall i :: 0 <= i < |stages| ==> RightFor(cache, stages[i])
  }

  /** The build's result is that of its stage built without a cache. */
  ghost predicate BuildRight<F, L>(stages: seq<Stage<F, L>>, b: BuildRecord<F, L>) {
    && b.stage < |stages| && |b.after| == |stages[b.stage].cmds|
    && var g, n := stages[b.stage], |b.after|;
    && StateAt(g.world, b.after, StartState(g, b), n).cfg == g.Before(n).cfg
    && Flatten(g.world, g.start.fs, LayersAt(g.world, b.after, StartState(g, b), n)) == g.Before(n).fs
  }

  lemma OneBuildRight<F, L>(stages: seq<Stage<F, L>>, cache: map<string, L>, b: BuildRecord<F, L>)
    requires Universe(stages) && AllRight(cache, stages) && RecordOk(stages, cache, b)
    ensures BuildRight(stages, b)
    ensures AllRight(CacheAfter(stages, cache, b), stages)
  {
    var g := stages[b.stage];
    hide StateAt, LayersAt, PushesAt, KeysAt, Optimized, SnapshotsRight, CacheRight, KeysIdentify, Flatten, Pushed;
    assert RightFor(cache, g);
    CacheRefinement(g.world, cache, g.cmds, b.after, g.start, b.bare, g.keys, b.crossStage);
    OptimizedAllStandFor(g.world, cache, g.cmds, ViewOf(g.start), g.keys, b.after);
    forall i | 0 <= i < |stages| ensures RightFor(CacheAfter(stages, cache, b), stages[i]) {
      PushesKeepRight(cache, g, b.after, StartState(g, b), b.crossStage, stages[i], |g.cmds|);
    }
  }

  /**
   * The protocol over any history: from a cache that is right, be it empty, every build of every
   * sequence of builds over that cache gives the result of a build without one.
   */
  lemma {:induction false} EveryBuildRight<F, L>(stages: seq<Stage<F, L>>, cache: map<string, L>, bs: seq<BuildRecord<F, L>>)
    requires Universe(stages) && AllRight(cache, stages) && Builds(stages, cache, bs)
    ensures forall b :: b in bs ==> BuildRight(stages, b)
    decreases |bs|
  {
    hide Universe, AllRight, Optimized, WorkdirsLevel, CacheAfter, BuildRight;
    if bs != [] {
      OneBuildRight(stages, cache, bs[0]);
      EveryBuildRight(stages, CacheAfter(stages, cache, bs[0]), bs[1..]);
      assert bs == [bs[0]] + bs[1..];
    }
  }

  lemma EmptyCacheRight<F, L>(stages: seq<Stage<F, L>>)
    ensures AllRight(map[], stages)
  {
  }

  // ---------------------------------------------------------------------------------------------
  // Why equal keys identify states
  // ---------------------------------------------------------------------------------------------

  lemma {:induction false} EncodeAllAppend(bs: seq<Block>, b: Block)
    ensures EncodeAll(bs + [b]) == EncodeAll(bs) + Encode(b)
    decreases |bs|
  {
    hide Encode;
    if bs == [] {
      assert bs + [b] == [b] && [b][1..] == [];
    } else {
      assert (bs + [b])[1..] == bs[1..] + [b];
      EncodeAllAppend(bs[1..], b);
    }
  }

  /** The key list is the first key followed by the commands' blocks. */
  lemma {:induction false} KeysAreBlocks<F, L>(g: Stage<F, L>, i: nat)
    requires i <= |g.cmds|
    ensures KeysAt(g.world, g.cmds, ViewOf(g.start), g.keys, i) == g.keys + EncodeAll(g.Blocks(i))
  {
    hide BlockOf, Encode, ViewAt;
    if i > 0 {
      KeysAreBlocks(g, i - 1);
      EncodeAllAppend(g.Blocks(i - 1), g.BlockAt(i - 1));
    }
  }

  lemma {:induction false} BlocksAt<F, L>(g: Stage<F, L>, i: nat, k: nat)
    requires k < i <= |g.cmds|
    ensures g.Blocks(i)[k] == g.BlockAt(k)
  {
    hide BlockOf, ViewAt;
    if k < i - 1 {
      BlocksAt(g, i - 1, k);
    }
  }

  /** A command that adds the same block in the same state has the same effect in both builds. */
  ghost predicate SameEffects<F, L>(g: Stage<F, L>, h: Stage<F, L>) {
    forall k | 0 <= k < |g.cmds| && k < |h.cmds| ::
      g.BlockAt(k) == h.BlockAt(k) && g.Before(k) == h.Before(k) ==> g.Before(k + 1) == h.Before(k + 1)
  }

  ghost predicate PlausibleStage<F, L>(g: Stage<F, L>) {
    |g.keys| == 1 && forall k :: 0 <= k < |g.cmds| ==> Plausible(g.BlockAt(k))
  }

  lemma {:induction false} SameBlocksSameStates<F, L>(g: Stage<F, L>, h: Stage<F, L>, i: nat, n: nat)
    requires SameEffects(g, h) && g.start == h.start && i <= n <= |g.cmds| && n <= |h.cmds|
    requires g.Blocks(n) == h.Blocks(n)
    ensures g.Before(i) == h.Before(i)
  {
    hide BlockOf, ViewAt;
    if i > 0 {
      SameBlocksSameStates(g, h, i - 1, n);
      BlocksAt(g, n, i - 1);
      BlocksAt(h, n, i - 1);
    }
  }

  /** The hash tells the key lists of the two stages apart. */
  ghost predicate ToldApart<F, L>(g: Stage<F, L>, h: Stage<F, L>) {
    forall i, j | 0 <= i < |g.cmds| && 0 <= j < |h.cmds| :: g.Key(i) == h.Key(j) ==> g.KeyList(i) == h.KeyList(j)
  }

  lemma EqualListsEqualBlocks<F, L>(g: Stage<F, L>, h: Stage<F, L>, i: nat, j: nat)
    requires PlausibleStage(g) && PlausibleStage(h)
    requires i < |g.cmds| && j < |h.cmds| && g.KeyList(i) == h.KeyList(j)
    ensures g.keys == h.keys && i == j && g.Blocks(i + 1) == h.Blocks(j + 1)
  {
    hide BlockOf, ViewAt, EncodeAll, KeysAt, Plausible;
    KeysAreBlocks(g, i + 1);
    KeysAreBlocks(h, j + 1);
    var bs, cs := g.Blocks(i + 1), h.Blocks(j + 1);
    assert g.keys + EncodeAll(bs) == h.keys + EncodeAll(cs);
    assert (g.keys + EncodeAll(bs))[..1] == g.keys && (h.keys + EncodeAll(cs))[..1] == h.keys;
    assert (g.keys + EncodeAll(bs))[1..] == EncodeAll(bs) && (h.keys + EncodeAll(cs))[1..] == EncodeAll(cs);
    forall b | b in bs ensures Plausible(b) {
      var k :| 0 <= k < |bs| && bs[k] == b;
      BlocksAt(g, i + 1, k);
    }
    forall c | c in cs ensures Plausible(c) {
      var k :| 0 <= k < |cs| && cs[k] == c;
      BlocksAt(h, j + 1, k);
    }
    KeyListInjective(bs, cs);
  }

  lemma EqualKeysEqualBlocks<F, L>(g: Stage<F, L>, h: Stage<F, L>, i: nat, j: nat)
    requires PlausibleStage(g) && PlausibleStage(h) && ToldApart(g, h)
    requires i < |g.cmds| && j < |h.cmds| && g.Key(i) == h.Key(j)
    ensures g.keys == h.keys && i == j && g.Blocks(i + 1) == h.Blocks(j + 1)
  {
    hide BlockOf, ViewAt, EncodeAll, KeysAt, Plausible;
    EqualListsEqualBlocks(g, h, i, j);
  }

  /** What two commands with one block have in common. */
  ghost predicate SameInputs<F, L>(g: Stage<F, L>, h: Stage<F, L>, k: nat)
    requires k < |g.cmds| && k < |h.cmds|
  {
    var c, d := g.cmds[k], h.cmds[k];
    var v, u := ViewOf(g.Before(k)), ViewOf(h.Before(k));
    && c.text == d.text
    && (RunsProgram(c) && RunsProgram(d) ==>
          multiset(g.world.replacementEnvs(v.args, v.env)) == multiset(h.world.replacementEnvs(u.args, u.env)))
    && (CopiesFiles(c) && CopiesFiles(d) ==> HashesRead(g.world, c, v) == HashesRead(h.world, d, u))
  }

  lemma EqualBlocksSameInputs<F, L>(g: Stage<F, L>, h: Stage<F, L>, k: nat)
    requires k < |g.cmds| && k < |h.cmds| && g.BlockAt(k) == h.BlockAt(k)
    ensures SameInputs(g, h, k)
  {
    SelfStands(g.cmds);
    SelfStands(h.cmds);
    StateTracksView(g.world, g.cmds, g.cmds, g.start, k);
    StateTracksView(h.world, h.cmds, h.cmds, h.start, k);
    hide StateAt, ViewAt, Sorted;
    var v, u := ViewOf(g.Before(k)), ViewOf(h.Before(k));
    SortedExact(g.world.replacementEnvs(v.args, v.env), h.world.replacementEnvs(u.args, u.env));
  }

  lemma SelfStands<L>(cmds: seq<Command<L>>)
    ensures AllStandFor(cmds, cmds)
  {
  }

  /**
   * Stages with equal key lists have run the same texts so far, each RUN with the same environment and
   * args, and each COPY and ADD on files with the same hashes; so a RUN with another environment, or a
   * COPY of other content, has another key list, and every command behind it as well.
   */
  lemma EqualKeysSameInputs<F, L>(g: Stage<F, L>, h: Stage<F, L>, i: nat, j: nat)
    requires PlausibleStage(g) && PlausibleStage(h)
    requires i < |g.cmds| && j < |h.cmds| && g.KeyList(i) == h.KeyList(j)
    ensures i == j && forall k :: 0 <= k <= i ==> SameInputs(g, h, k)
  {
    hide BlockOf, ViewAt, KeysAt, PlausibleStage;
    EqualListsEqualBlocks(g, h, i, j);
    forall k | 0 <= k <= i ensures SameInputs(g, h, k) {
      BlocksAt(g, i + 1, k);
      BlocksAt(h, j + 1, k);
      EqualBlocksSameInputs(g, h, k);
    }
  }

  /** Key lists with equal keys have the same number of dashes, part by part. */
  ghost predicate DashesAgree<F, L>(g: Stage<F, L>, h: Stage<F, L>) {
    forall i, j | 0 <= i < |g.cmds| && 0 <= j < |h.cmds| :: g.Key(i) == h.Key(j) ==> SameDashes(g.KeyList(i), h.KeyList(j))
  }

  lemma KeyListNotEmpty<F, L>(g: Stage<F, L>, i: nat)
    requires i < |g.cmds|
    ensures g.KeyList(i) != []
  {
    hide BlockOf, ViewAt;
  }

  /**
   * The key is the sum of the joined list. With a hash of strings that has no collisions, the key lists
   * are told apart exactly if those with equal keys have the same dashes.
   */
  lemma ToldApartExact<F, L>(g: Stage<F, L>, h: Stage<F, L>, sha: string -> string)
    requires forall x, y :: sha(x) == sha(y) ==> x == y
    requires forall keys :: g.world.hash(keys) == sha(Join(keys)) && h.world.hash(keys) == sha(Join(keys))
    ensures ToldApart(g, h) <==> DashesAgree(g, h)
  {
    forall i, j | 0 <= i < |g.cmds| && 0 <= j < |h.cmds| && g.Key(i) == h.Key(j)
      ensures g.KeyList(i) == h.KeyList(j) <==> SameDashes(g.KeyList(i), h.KeyList(j))
    {
      KeyListNotEmpty(g, i);
      KeyListNotEmpty(h, j);
      hide KeysAt;
      assert g.world.hash(g.KeyList(i)) == h.world.hash(h.KeyList(j));
      JoinExact(g.KeyList(i), h.KeyList(j));
    }
  }

  lemma EqualKeysSameStep<F, L>(g: Stage<F, L>, i: nat, h: Stage<F, L>, j: nat)
    requires PlausibleStage(g) && PlausibleStage(h) && ToldApart(g, h)
    requires SameEffects(g, h) && (g.keys == h.keys ==> g.start == h.start)
    requires i < |g.cmds| && j < |h.cmds| && g.Key(i) == h.Key(j)
    ensures SameStep(g, i, h, j)
  {
    hide StateAt, KeyOf, KeysAt, SameEffects, PlausibleStage, ToldApart, BlockOf, ViewAt;
    EqualKeysEqualBlocks(g, h, i, j);
    SameBlocksSameStates(g, h, i, i + 1);
    SameBlocksSameStates(g, h, i + 1, i + 1);
  }

  /**
   * Equal keys identify states, if the hash tells the key lists apart, equal first keys mean equal base
   * images, and each single command is determined by its block and the state it starts from.
   */
  lemma KeysIdentifyStates<F, L>(g: Stage<F, L>, h: Stage<F, L>)
    requires PlausibleStage(g) && PlausibleStage(h) && ToldApart(g, h)
    requires SameEffects(g, h) && (g.keys == h.keys ==> g.start == h.start)
    ensures KeysIdentify(g, h)
  {
    hide SameStep, KeyOf, SameEffects, PlausibleStage, ToldApart;
    forall i, j | 0 <= i < |g.cmds| && 0 <= j < |h.cmds| && g.Key(i) == h.Key(j) ensures SameStep(g, i, h, j) {
      EqualKeysSameStep(g, i, h, j);
    }
  }

  // ---------------------------------------------------------------------------------------------
  // WORKDIR on a file system that was never unpacked
  // ---------------------------------------------------------------------------------------------

  /** File systems are numbers, 7 has the directory that WORKDIR wants; a layer is a pair of them. */
  const WORLD: World<int, (int, int)> := World(
    (text, env, args) => env, (text, env, args) => args, (text, cfg, args) => text,
    (text, env, args) => [], path => None, (args, env) => [],
    (text, cfg, args, fs) => if fs == 7 then 7 else 1,
    (fs, layer: (int, int)) => layer.1,
    (text, cfg, args, fs) => if fs == 7 then Some([]) else Some(["/srv"]),
    (files, a, b) => (a, b), (layer: (int, int)) => layer.0 == layer.1, keys => "")

  const WORKDIR_ONLY: seq<Command<(int, int)>> := [Workdir("WORKDIR /srv")]

  /**
   * Without a command that needs the base image, WORKDIR finds an empty disk: it makes a directory
   * that the base image has, and its layer replaces the one of the base image.
   */
  lemma WorkdirOnBareDisk()
    ensures var s := State(7, Config([], ""), map[]);
      var t := StartOf(WORKDIR_ONLY, false, s, 0);
      && Fresh(WORKDIR_ONLY) && Optimized(WORLD, map[], WORKDIR_ONLY, ViewOf(s), [], WORKDIR_ONLY)
      && CacheRight(WORLD, map[], WORKDIR_ONLY, s, []) && SnapshotsRight(WORLD, WORKDIR_ONLY, s)
      && !Grounded(WORKDIR_ONLY, false) && !WorkdirsLevel(WORLD, WORKDIR_ONLY, WORKDIR_ONLY, s, t)
      && Flatten(WORLD, 7, LayersAt(WORLD, WORKDIR_ONLY, t, 1)) != StateAt(WORLD, WORKDIR_ONLY, s, 1).fs
  {
    var s := State(7, Config([], ""), map[]);
    var t := StartOf(WORKDIR_ONLY, false, s, 0);
    assert t.fs == 0;
    assert WORKDIR_ONLY[0].Workdir?;
    WorkdirRight(s);
    WorkdirLayers(t);
    assert StateAt(WORLD, WORKDIR_ONLY, s, 1).fs == 7;
    hide StateAt, LayersAt, SnapshotsRight;
    FlattenAppend(WORLD, 7, [], (0, 1));
    assert [] + [(0, 1)] == [(0, 1)];
  }

  lemma WorkdirRight(s: State<int>)
    requires s.fs == 7
    ensures SnapshotsRight(WORLD, WORKDIR_ONLY, s)
  {
    assert StateAt(WORLD, WORKDIR_ONLY, s, 0) == s;
    assert Snapped(WORLD, WORKDIR_ONLY[0], s) == None;
  }

  lemma WorkdirLayers(t: State<int>)
    requires t.fs == 0
    ensures LayersAt(WORLD, WORKDIR_ONLY, t, 1) == [(0, 1)]
  {
    assert StateAt(WORLD, WORKDIR_ONLY, t, 0) == t;
    assert Snapped(WORLD, WORKDIR_ONLY[0], t) == Some((0, 1));
    assert LayersAt(WORLD, WORKDIR_ONLY, t, 0) == [];
    assert LayersAt(WORLD, WORKDIR_ONLY, t, 1) == [] + [(0, 1)];
  }

  // ---------------------------------------------------------------------------------------------
  // Two builds over one cache
  // ---------------------------------------------------------------------------------------------

  const RUN_ONLY: seq<Command<(int, int)>> := [Run("RUN make", true)]
  const RUN_CACHED: seq<Command<(int, int)>> := [CachingRun("RUN make", (0, 1))]
  const RUN_STAGE: Stage<int, (int, int)> := Stage(WORLD, RUN_ONLY, State(0, Config([], ""), map[]), ["base"])

  lemma RunStates()
    ensures RUN_STAGE.Before(0).fs == 0 && RUN_STAGE.Before(1).fs == 1 && RUN_STAGE.Key(0) == ""
  {
  }

  lemma RunUniverse()
    ensures Universe([RUN_STAGE])
  {
    RunStates();
    assert SnapshotsRight(WORLD, RUN_ONLY, RUN_STAGE.start);
    assert KeysIdentify(RUN_STAGE, RUN_STAGE);
  }

  /** The cache after the first of the two builds. */
  lemma RunPushes()
    ensures Pushed(map[], PushesAt(WORLD, RUN_ONLY, RUN_STAGE.start, ["base"], 1)) == map["" := (0, 1)]
  {
    RunStates();
    assert PushesAt(WORLD, RUN_ONLY, RUN_STAGE.start, ["base"], 0) == [];
    assert PushesAt(WORLD, RUN_ONLY, RUN_STAGE.start, ["base"], 1) == [] + [("", (0, 1))];
    PushedAppend(map[], [], ("", (0, 1)));
  }

  const FIRST: BuildRecord<int, (int, int)> := BuildRecord(0, RUN_ONLY, 0, false)
  const SECOND: BuildRecord<int, (int, int)> := BuildRecord(0, RUN_CACHED, 0, false)

  lemma FirstOptimized()
    ensures Optimized(WORLD, map[], RUN_ONLY, ViewOf(RUN_STAGE.start), ["base"], RUN_ONLY)
    ensures WorkdirsLevel(WORLD, RUN_ONLY, RUN_ONLY, RUN_STAGE.start, RUN_STAGE.start)
  {
    hide KeyOf, StateAt, KeysAt;
  }

  lemma FirstRecord()
    ensures RecordOk([RUN_STAGE], map[], FIRST) && CacheAfter([RUN_STAGE], map[], FIRST) == map["" := (0, 1)]
  {
    RunPushes();
    FirstOptimized();
    assert RUN_ONLY[0].RequiresUnpackedFS();
    hide PushesAt, Pushed, Optimized, WorkdirsLevel;
  }

  lemma SecondRecord()
    ensures RecordOk([RUN_STAGE], map["" := (0, 1)], SECOND)
  {
    RunStates();
    hide StateAt, KeyOf;
    assert Hit(WORLD, map["" := (0, 1)], RUN_ONLY, ViewOf(RUN_STAGE.start), ["base"], 0);
  }

  /** The first build runs the command and pushes its layer; the second is served that layer. */
  lemma SecondBuildIsServed()
    ensures Universe([RUN_STAGE]) && AllRight(map[], [RUN_STAGE]) && Builds([RUN_STAGE], map[], [FIRST, SECOND])
  {
    RunUniverse();
    EmptyCacheRight([RUN_STAGE]);
    FirstRecord();
    SecondRecord();
    hide RecordOk, CacheAfter, Universe, AllRight;
    var stages, cache := [RUN_STAGE], map["" := (0, 1)];
    assert [FIRST, SECOND][1..] == [SECOND] && [SECOND][1..] == [];
    assert Builds(stages, CacheAfter(stages, cache, SECOND), []);
    assert Builds(stages, cache, [SECOND]);
  }
}

/** The passes that turn the stages of a Dockerfile into the list of stages to build. */
module KanikoStages {
  import opened Options
  import opened CompositeKeys
  import opened Dockerfiles

  datatype KanikoStage = KanikoStage(
    stage: Stage,
    baseImageIndex: int,
    baseImageStoredLocally: bool,
    saveStage: bool,
    final: bool,
    index: nat)

  datatype Outcome = Made(stages: seq<KanikoStage>) | NoSuchTarget | IndexOutOfRange

  /** The stage that a target names: the last one if there is no target, else the first of that name. */
  ghost predicate IsTarget(stages: seq<Stage>, target: string, idx: nat) {
    && idx < |stages|
    && if target == "" then idx == |stages| - 1
       else Lower(stages[idx].name) == Lower(target) && forall i :: 0 <= i < idx ==> Lower(stages[i].name) != Lower(target)
  }

  method TargetStage(stages: seq<Stage>, target: string) returns (r: Option<nat>)
    requires stages != []
    ensures r.Some? ==> IsTarget(stages, target, r.value)
    ensures r.None? ==> target != "" && forall i :: 0 <= i < |stages| ==> Lower(stages[i].name) != Lower(target)
  {
    if target == "" {
      return Some(|stages| - 1);
    }
    for i := 0 to |stages|
      invariant forall k :: 0 <= k < i ==> Lower(stages[k].name) != Lower(target)
    {
      if Lower(stages[i].name) == Lower(target) {
        return Some(i);
      }
    }
    return None;
  }

  method BaseImageIndex(currentStage: nat, stages: seq<Stage>) returns (r: int)
    requires currentStage < |stages|
    ensures r == BaseOf(stages, currentStage)
    ensures r != -1 ==> 0 <= r < currentStage && stages[r].name == Lower(stages[currentStage].baseName)
    ensures forall i :: 0 <= i < currentStage && (r == -1 || i < r) ==> stages[i].name != Lower(stages[currentStage].baseName)
  {
    var currentStageBaseName := Lower(stages[currentStage].baseName);
    for i := 0 to |stages|
      invariant i <= currentStage && FirstNamed(stages, currentStageBaseName, i) == -1
    {
      if i >= currentStage {
        break;
      }
      if stages[i].name == currentStageBaseName {
        FirstNamedStays(stages, currentStageBaseName, i + 1, currentStage);
        return i;
      }
    }
    return -1;
  }

  lemma {:induction false} FirstNamedStays(stages: seq<Stage>, name: string, m: nat, n: nat)
    requires m <= n <= |stages| && FirstNamed(stages, name, m) != -1
    ensures FirstNamed(stages, name, n) == FirstNamed(stages, name, m)
    decreases n - m
  {
    if m < n {
      FirstNamedStays(stages, name, m, n - 1);
    }
  }

  /** A later stage names this one as its base. */
  ghost predicate NamedAsBase(stages: seq<Stage>, index: nat)
    requires index < |stages|
  {
    exists k :: index < k < |stages| && Lower(stages[k].baseName) == stages[index].name && stages[k].baseName != ""
  }

  method SaveStage(index: nat, stages: seq<Stage>) returns (save: bool)
    requires index < |stages|
    ensures save <==> NamedAsBase(stages, index)
  {
    for stageIndex := 0 to |stages|
      invariant forall k :: index < k < stageIndex ==> Lower(stages[k].baseName) != stages[index].name || stages[k].baseName == ""
    {
      if stageIndex <= index {
        continue;
      }
      if Lower(stages[stageIndex].baseName) == stages[index].name {
        if stages[stageIndex].baseName != "" {
          return true;
        }
      }
    }
    return false;
  }

  ghost predicate DistinctNames(stages: seq<Stage>) {
    forall i, j | 0 <= i < j < |stages| :: stages[i].name == stages[j].name ==> stages[i].name == ""
  }

  /** With distinct names, the stages that are saved are exactly those that another stage is built on. */
  lemma SavedIffBase(stages: seq<Stage>, index: nat)
    requires index < |stages| && DistinctNames(stages)
    ensures NamedAsBase(stages, index) <==> exists k :: 0 <= k < |stages| && BaseOf(stages, k) == index && stages[k].baseName != ""
  {
    if NamedAsBase(stages, index) {
      var k :| index < k < |stages| && Lower(stages[k].baseName) == stages[index].name && stages[k].baseName != "";
      assert BaseOf(stages, k) == index;
    }
    forall k | 0 <= k < |stages| && BaseOf(stages, k) == index && stages[k].baseName != "" ensures NamedAsBase(stages, index) {
      assert index < k;
    }
  }

  /** Looking into the stages from the last one, the pass comes across an index that no stage has. */
  ghost predicate MeetsBadIndex(stages: seq<Stage>, idx: nat, i: nat)
    requires i <= idx + 1 && idx < |stages|
  {
    exists j :: i <= j <= idx && LooksInto(stages, idx, j, Marks(stages, idx, j + 1))
             && exists c :: c in stages[j].commands && BadIndex(stages, c)
  }

  /** The instruction copies from a stage by an index that no stage has. */
  ghost predicate RefersNowhere(stages: seq<Stage>, c: Instruction) {
    c.Copy? && ParseInt(c.from).Some? && (ParseInt(c.from).value < 0 || |stages| <= ParseInt(c.from).value)
  }

  /** A stage that the target needs has such an instruction. */
  ghost predicate NeedsBadIndex(stages: seq<Stage>, idx: nat)
    requires idx < |stages|
  {
    exists j, c :: 0 <= j <= idx && Needs(stages, idx, j) && c in stages[j].commands && RefersNowhere(stages, c)
  }

  /** Where names are unambiguous, the pass comes across a bad index exactly if the target needs a stage that has one. */
  lemma BadIndexExact(stages: seq<Stage>, idx: nat)
    requires idx < |stages| && MarksMeant(stages, idx) && Unambiguous(stages, idx)
    ensures MeetsBadIndex(stages, idx, 0) <==> NeedsBadIndex(stages, idx)
  {
    hide Needs, MarksMeant, Unambiguous, LooksInto, Marks, Kept;
    forall j | 0 <= j <= idx ensures Needs(stages, idx, j) <==> LooksInto(stages, idx, j, Marks(stages, idx, j + 1)) {
      if Needs(stages, idx, j) {
        NeededIsKept(stages, idx, j);
      }
      if LooksInto(stages, idx, j, Marks(stages, idx, j + 1)) {
        LookedIntoIsNeeded(stages, idx, j);
      }
    }
    forall c ensures BadIndex(stages, c) <==> RefersNowhere(stages, c) {
    }
    hide BadIndex, RefersNowhere;
    if j, c :| 0 <= j <= idx && Needs(stages, idx, j) && c in stages[j].commands && RefersNowhere(stages, c) {
      assert BadIndex(stages, c);
    }
  }

  /** The inner loop: marks what the commands of a stage copy from. */
  method MarkCopies(stages: seq<Stage>, commands: seq<Instruction>, marks: set<string>) returns (r: Option<set<string>>)
    ensures r.None? <==> exists c :: c in commands && BadIndex(stages, c)
    ensures r.None? <==> exists c :: c in commands && RefersNowhere(stages, c)
    ensures r.Some? ==> r.value == marks + CopyNames(stages, commands)
  {
    var stagesDependencies := marks;
    for k := 0 to |commands|
      invariant stagesDependencies == marks + CopyNames(stages, commands[..k])
      invariant forall c :: c in commands[..k] ==> !BadIndex(stages, c)
    {
      var c := commands[k];
      assert commands[..k + 1] == commands[..k] + [c];
      CopyNamesAppend(stages, commands[..k], c);
      match c {
        case Other(_) =>
        case Copy(from, _) =>
          var stageName := from;
          match ParseInt(stageName) {
            case None =>
            case Some(copyFromIndex) =>
              if !(0 <= copyFromIndex < |stages|) {
                assert BadIndex(stages, c);
                return None;
              }
              stageName := stages[copyFromIndex].name;
          }
          if stageName !in stagesDependencies {
            stagesDependencies := stagesDependencies + {stageName};
          }
      }
    }
    assert commands[..|commands|] == commands;
    return Some(stagesDependencies);
  }

  lemma CopyNamesAppend(stages: seq<Stage>, commands: seq<Instruction>, c: Instruction)
    ensures CopyNames(stages, commands + [c])
         == CopyNames(stages, commands) + if c.Copy? then {CopyName(stages, c.from)} else {}
  {
    var all, before := commands + [c], CopyNames(stages, commands);
    forall x | x in CopyNames(stages, all) ensures x in before + if c.Copy? then {CopyName(stages, c.from)} else {} {
      var d :| d in all && d.Copy? && CopyName(stages, d.from) == x;
    }
    forall x | x in before ensures x in CopyNames(stages, all) {
      var d :| d in commands && d.Copy? && CopyName(stages, d.from) == x;
      assert d in all;
    }
    if c.Copy? {
      assert c in all;
    }
  }

  /** The first loop: from the last stage to the first, marks the names of what is used. */
  method MarkStages(stages: seq<Stage>, idx: nat) returns (marks: Option<set<string>>)
    requires idx < |stages|
    ensures marks.None? <==> MeetsBadIndex(stages, idx, 0)
    ensures marks.Some? ==> marks.value == Marks(stages, idx, 0)
  {
    var stagesDependencies: set<string> := {};
    var lastStageBaseName := stages[idx].baseName;
    var i := idx + 1;
    while i > 0
      invariant 0 <= i <= idx + 1
      invariant stagesDependencies == Marks(stages, idx, i)
      invariant !MeetsBadIndex(stages, idx, i)
    {
      i := i - 1;
      var s := stages[i];
      if (s.name != "" && s.name in stagesDependencies) || s.name == lastStageBaseName || i == idx {
        assert LooksInto(stages, idx, i, Marks(stages, idx, i + 1));
        var marked := MarkCopies(stages, s.commands, stagesDependencies);
        if marked.None? {
          return None;
        }
        stagesDependencies := marked.value;
        if i != idx {
          stagesDependencies := stagesDependencies + {s.baseName};
        }
      }
    }
    return Some(stagesDependencies);
  }

  /** The second loop: keeps the stages before the target that are marked, or that it is built on. */
  method KeepMarked(stages: seq<Stage>, idx: nat, stagesDependencies: set<string>) returns (kept: seq<Stage>, ghost ks: seq<nat>)
    requires idx < |stages| && stagesDependencies == Marks(stages, idx, 0)
    ensures ks == KeptBefore(stages, idx, idx) && InRange(stages, ks) && kept == Pick(stages, ks) && |ks| <= idx
  {
    hide Marks;
    kept, ks := [], [];
    for k := 0 to idx
      invariant ks == KeptBefore(stages, idx, k) && |ks| <= k
      invariant InRange(stages, ks) && kept == Pick(stages, ks)
    {
      if stages[k].name == "" {
        continue;
      }
      var s := stages[k];
      if s.name in stagesDependencies || s.name == stages[idx].baseName {
        kept := kept + [s];
        ks := ks + [k];
      }
    }
  }

  lemma LeftRefsExact(stages: seq<Stage>, idx: nat, target: string)
    requires idx < |stages|
    ensures var ks := Left(stages, idx, target);
      InRange(stages, ks) && forall k :: 0 <= k < |ks| ==> (RefsKept(stages, ks, k) <==> RefsStay(stages, ks, ks[k]))
  {
    var ks := Left(stages, idx, target);
    LeftExact(stages, idx, target);
    hide Left, RefsKept, RefsStay;
    forall k | 0 <= k < |ks| ensures RefsKept(stages, ks, k) <==> RefsStay(stages, ks, ks[k]) {
      RefsExact(stages, ks, k);
    }
  }

  /** Drops the stages that the target does not need, as far as names tell. */
  method SkipUnusedStages(stages: seq<Stage>, lastStageIndex: nat, target: string) returns (used: Option<seq<Stage>>, index: nat)
    requires lastStageIndex < |stages|
    ensures used.None? <==> MeetsBadIndex(stages, lastStageIndex, 0)
    ensures used.Some? ==>
      var ks := Left(stages, lastStageIndex, target);
      && InRange(stages, ks) && used.value == Pick(stages, ks) && index == NewIndex(stages, lastStageIndex, target)
      && index < |used.value| && used.value[index] == stages[lastStageIndex]
    ensures used.Some? ==>
      var ks := Left(stages, lastStageIndex, target);
      forall k :: 0 <= k < |ks| ==> (RefsKept(stages, ks, k) <==> RefsStay(stages, ks, ks[k]))
    ensures used.Some? && AllStay(stages, lastStageIndex, Left(stages, lastStageIndex, target)) ==>
      Meaning(used.value, index) == Meaning(stages, lastStageIndex)
  {
    hide Marks, Meaning, AllStay, RefsKept, RefsStay, KeptBefore, MeetsBadIndex;
    var idx := lastStageIndex;
    index := lastStageIndex;
    var marks := MarkStages(stages, idx);
    if marks.None? {
      return None, index;
    }
    LeftExact(stages, idx, target);
    if AllStay(stages, idx, Left(stages, idx, target)) {
      PruningKeepsMeaning(stages, idx, target);
    }
    LeftRefsExact(stages, idx, target);
    if target == "" && marks.value == {} {
      assert Pick(stages, Left(stages, idx, target)) == stages;
      return Some(stages), index;
    }
    var onlyUsedStages: seq<Stage> := [];
    ghost var ks: seq<nat> := [];
    if marks.value != {} {
      onlyUsedStages, ks := KeepMarked(stages, idx, marks.value);
    }
    onlyUsedStages := onlyUsedStages + [stages[idx]];
    ks := ks + [idx];
    assert ks == Left(stages, idx, target) && onlyUsedStages == Pick(stages, ks);
    if idx > |onlyUsedStages| - 1 {
      index := |onlyUsedStages| - 1;
    }
    return Some(onlyUsedStages), index;
  }

  function Plain(ks: seq<KanikoStage>): (r: seq<Stage>)
    ensures |r| == |ks| && forall i :: 0 <= i < |ks| ==> r[i] == ks[i].stage
  {
    seq(|ks|, i requires 0 <= i < |ks| => ks[i].stage)
  }

  /** What each stage to build says about itself. */
  ghost predicate WellMade(ks: seq<KanikoStage>) {
    forall i :: 0 <= i < |ks| ==>
      && ks[i].index == i && (ks[i].final <==> i == |ks| - 1)
      && ks[i].baseImageIndex == BaseOf(Plain(ks), i)
      && (ks[i].baseImageStoredLocally <==> ks[i].baseImageIndex != -1)
      && (ks[i].baseImageIndex != -1 && ks[i].stage.baseName != "" ==> ks[ks[i].baseImageIndex].saveStage)
  }

  /** Exactly the stages are saved that a later one, be it behind the target, names as its base. */
  ghost predicate SavedFor(stages: seq<Stage>, ks: seq<KanikoStage>) {
    |ks| <= |stages| && forall i :: 0 <= i < |ks| ==> (ks[i].saveStage <==> NamedAsBase(stages, i))
  }

  /** The stages to build end with the target, and their last one means what the target means. */
  ghost predicate EndsWithTarget(stages: seq<Stage>, idx: nat, ks: seq<KanikoStage>)
    requires idx < |stages|
  {
    ks != [] && ks[|ks| - 1].stage == stages[idx] && Meaning(Plain(ks), |ks| - 1) == Meaning(stages, idx)
  }

  /** The stages left after pruning. */
  ghost predicate PrunedStages(stages: seq<Stage>, idx: nat, left: seq<Stage>)
    requires idx < |stages|
  {
    exists ks :: PrunedTo(stages, idx, ks) && left == Pick(stages, ks)
  }

  lemma PrunedOrAll(stages: seq<Stage>, idx: nat, target: string)
    requires idx < |stages|
    ensures var ks, at := Left(stages, idx, target), NewIndex(stages, idx, target);
      && InRange(stages, ks) && at < |ks|
      && if SomethingToPrune(stages, idx, target) then
           PrunedStages(stages, idx, Pick(stages, ks)) && at == |ks| - 1
         else Pick(stages, ks) == stages && at == idx
  {
    var ks, at := Left(stages, idx, target), NewIndex(stages, idx, target);
    LeftExact(stages, idx, target);
    PrunesExact(stages, idx, target);
    if SomethingToPrune(stages, idx, target) {
      LeftIsPruned(stages, idx, target);
      hide Left, NewIndex, PrunedTo;
    }
  }

  lemma OneTarget(stages: seq<Stage>, target: string, idx: nat)
    requires IsTarget(stages, target, idx)
    ensures forall i: nat :: IsTarget(stages, target, i) <==> i == idx
  {
  }

  lemma AtTarget(stages: seq<Stage>, idx: nat, used: seq<Stage>, at: nat, ks: seq<KanikoStage>)
    requires idx < |stages| && at < |used| && used[at] == stages[idx] && Meaning(used, at) == Meaning(stages, idx)
    requires Plain(ks) == used[..at + 1] && |ks| == at + 1
    ensures EndsWithTarget(stages, idx, ks)
  {
    PrefixMeaning(used, at);
    hide Meaning;
    assert Plain(ks)[at] == used[at];
  }

  method MakeKanikoStages(stages: seq<Stage>, target: string, skip: bool) returns (r: Outcome)
    requires stages != []
    ensures r.NoSuchTarget? <==> forall idx :: 0 <= idx < |stages| ==> !IsTarget(stages, target, idx)
    ensures r.Made? ==> WellMade(r.stages)
    ensures forall idx: nat :: IsTarget(stages, target, idx) ==>
      && (r.IndexOutOfRange? <==> skip && MeetsBadIndex(stages, idx, 0))
      && (MarksMeant(stages, idx) && Unambiguous(stages, idx) ==> (r.IndexOutOfRange? <==> skip && NeedsBadIndex(stages, idx)))
      && (r.Made? && (!skip || AllStay(stages, idx, Left(stages, idx, target))) ==> EndsWithTarget(stages, idx, r.stages))
      && (r.Made? ==> if skip && SomethingToPrune(stages, idx, target) then PrunedStages(stages, idx, Plain(r.stages))
                      else Plain(r.stages) == stages[..idx + 1])
      && (r.Made? ==> SavedFor(if skip && SomethingToPrune(stages, idx, target) then Plain(r.stages) else stages, r.stages))
  {
    hide MeetsBadIndex, WellMade, SavedFor, AllStay, RefsKept, RefsStay, Meaning, Left, NewIndex, PrunedTo;
    hide SomethingToPrune, NeedsBadIndex, MarksMeant, Unambiguous;
    var found := TargetStage(stages, target);
    if found.None? {
      return NoSuchTarget;
    }
    var targetStage, used := found.value, stages;
    ghost var idx := targetStage;
    OneTarget(stages, target, idx);
    hide IsTarget, EndsWithTarget, PrunedStages, Pick;
    if MarksMeant(stages, idx) && Unambiguous(stages, idx) {
      BadIndexExact(stages, idx);
    }
    if skip {
      var kept, index := SkipUnusedStages(stages, targetStage, target);
      if kept.None? {
        return IndexOutOfRange;
      }
      PrunedOrAll(stages, idx, target);
      used, targetStage := kept.value, index;
    }
    var kanikoStages := Describe(used, targetStage);
    assert Plain(kanikoStages) == used[..targetStage + 1];
    assert targetStage == |used| - 1 ==> used[..targetStage + 1] == used;
    if Meaning(used, targetStage) == Meaning(stages, idx) {
      AtTarget(stages, idx, used, targetStage, kanikoStages);
    }
    return Made(kanikoStages);
  }

  /** The loop that builds the list, up to the target. */
  method Describe(stages: seq<Stage>, targetStage: nat) returns (kanikoStages: seq<KanikoStage>)
    requires targetStage < |stages|
    ensures |kanikoStages| == targetStage + 1 && Plain(kanikoStages) == stages[..targetStage + 1]
    ensures WellMade(kanikoStages) && SavedFor(stages, kanikoStages)
  {
    kanikoStages := [];
    for index := 0 to |stages|
      invariant index <= targetStage && |kanikoStages| == index
      invariant forall i :: 0 <= i < index ==> Described(stages, targetStage, i, kanikoStages[i])
    {
      var stage := stages[index];
      var baseImageIndex := BaseImageIndex(index, stages);
      var save := SaveStage(index, stages);
      kanikoStages := kanikoStages + [KanikoStage(stage, baseImageIndex, baseImageIndex != -1, save, index == targetStage, index)];
      if index == targetStage {
        break;
      }
    }
    assert Plain(kanikoStages) == stages[..targetStage + 1];
    forall i | 0 <= i <= targetStage ensures kanikoStages[i].baseImageIndex == BaseOf(Plain(kanikoStages), i) {
      FirstNamedPrefix(stages, Lower(stages[i].baseName), i, targetStage + 1);
    }
  }

  ghost predicate Described(stages: seq<Stage>, targetStage: nat, i: nat, k: KanikoStage)
    requires i < |stages|
  {
    && k.stage == stages[i] && k.index == i && (k.final <==> i == targetStage)
    && k.baseImageIndex == BaseOf(stages, i) && (k.baseImageStoredLocally <==> k.baseImageIndex != -1)
    && (k.saveStage <==> NamedAsBase(stages, i))
  }

  lemma {:induction false} FirstNamedPrefix(stages: seq<Stage>, name: string, i: nat, n: nat)
    requires i <= n <= |stages|
    ensures FirstNamed(stages[..n], name, i) == FirstNamed(stages, name, i)
  {
    if i > 0 {
      FirstNamedPrefix(stages, name, i - 1, n);
    }
  }

  // ---------------------------------------------------------------------------------------------
  // Names become indices
  // ---------------------------------------------------------------------------------------------

  /** What `--from` of a command of stage `j` is replaced by. */
  function ResolvedFrom(stages: seq<Stage>, j: nat, from: string): string
    requires j < |stages|
  {
    if from == "" || LastNamed(stages, Lower(from), j + 1) == -1 then from
    else Itoa(LastNamed(stages, Lower(from), j + 1))
  }

  function ResolvedCommand(stages: seq<Stage>, j: nat, c: Instruction): Instruction
    requires j < |stages|
  {
    if c.Copy? then Copy(ResolvedFrom(stages, j, c.from), c.text) else c
  }

  ghost predicate ResolvedStage(stages: seq<Stage>, j: nat, s: Stage)
    requires j < |stages|
  {
    && s.name == stages[j].name && s.baseName == stages[j].baseName && |s.commands| == |stages[j].commands|
    && forall k :: 0 <= k < |s.commands| ==> s.commands[k] == ResolvedCommand(stages, j, stages[j].commands[k])
  }

  /** The map holds the last stage of each name among the first `n`. */
  ghost predicate NamesUpTo(stages: seq<Stage>, n: nat, nameToIndex: map<string, string>)
    requires n <= |stages|
  {
    forall name :: if name != "" && LastNamed(stages, name, n) != -1
      then name in nameToIndex && nameToIndex[name] == Itoa(LastNamed(stages, name, n))
      else name !in nameToIndex
  }

  method ResolveCrossStageCommands(stages: seq<Stage>, j: nat, cmds: seq<Instruction>, stageNameToIdx: map<string, string>)
    returns (resolved: seq<Instruction>)
    requires j < |stages| && NamesUpTo(stages, j + 1, stageNameToIdx)
    ensures |resolved| == |cmds| && forall k :: 0 <= k < |cmds| ==> resolved[k] == ResolvedCommand(stages, j, cmds[k])
  {
    resolved := cmds;
    for k := 0 to |cmds|
      invariant |resolved| == |cmds|
      invariant forall m :: 0 <= m < k ==> resolved[m] == ResolvedCommand(stages, j, cmds[m])
      invariant forall m :: k <= m < |cmds| ==> resolved[m] == cmds[m]
    {
      match resolved[k] {
        case Other(_) =>
        case Copy(from, text) =>
          if from != "" {
            assert Lower(from) != "";
            if Lower(from) in stageNameToIdx {
              resolved := resolved[k := Copy(stageNameToIdx[Lower(from)], text)];
            }
          }
      }
    }
  }

  method ResolveCrossStageInstructions(stages: seq<Stage>) returns (resolved: seq<Stage>, nameToIndex: map<string, string>)
    ensures |resolved| == |stages|
    ensures forall j :: 0 <= j < |stages| ==> ResolvedStage(stages, j, resolved[j])
    ensures NamesUpTo(stages, |stages|, nameToIndex)
  {
    hide Itoa, ResolvedFrom;
    resolved, nameToIndex := [], map[];
    for i := 0 to |stages|
      invariant |resolved| == i && NamesUpTo(stages, i, nameToIndex)
      invariant forall j :: 0 <= j < i ==> ResolvedStage(stages, j, resolved[j])
    {
      var index := Itoa(i);
      if stages[i].name != "" {
        nameToIndex := nameToIndex[stages[i].name := index];
      }
      var commands := ResolveCrossStageCommands(stages, i, stages[i].commands, nameToIndex);
      assert ResolvedStage(stages, i, stages[i].(commands := commands));
      resolved := resolved + [stages[i].(commands := commands)];
    }
  }

  /** After the names are replaced, the index tells which earlier stage was meant, and only then. */
  lemma ResolvedIsSource(stages: seq<Stage>, j: nat, from: string)
    requires j < |stages| <= INT_MAX
    ensures var source, index := SourceOf(stages, j, from), ParseInt(ResolvedFrom(stages, j, from));
      && forall i: nat :: source == Earlier(i) <==> index == Some(i) && i < j
  {
    hide Itoa;
    var named := LastNamed(stages, Lower(from), j + 1);
    if named >= 0 {
      ParseItoa(named);
    }
  }

  // ---------------------------------------------------------------------------------------------
  // Where pruning changes the meaning
  // ---------------------------------------------------------------------------------------------

  /** `COPY --from=Builder` finds the stage `builder`, but the pass does not: the stage is dropped. */
  lemma MixedCaseIsLost()
    ensures var stages := [Stage("builder", "golang", []), Stage("", "scratch", [Copy("Builder", "app")])];
      var ks, at := Left(stages, 1, ""), NewIndex(stages, 1, "");
      ks == [1] && at == 0 && Meaning(Pick(stages, [1]), 0) != Meaning(stages, 1)
  {
    var stages := [Stage("builder", "golang", []), Stage("", "scratch", [Copy("Builder", "app")])];
    assert Lower("Builder") == "builder" && Lower("scratch") == "scratch" && Lower("golang") == "golang";
    assert !AllDigits("Builder") by { assert "Builder"[0] == 'B'; }
    OneMark(stages, Copy("Builder", "app"), "Builder");
    assert Pick(stages, [1]) == [stages[1]];
    assert SourceOf(stages, 1, "Builder") == Earlier(0);
    assert SourceOf([stages[1]], 0, "Builder") == Outside("Builder");
    OtherSource(stages, 1, [stages[1]], 0, Copy("Builder", "app"), 0);
  }

  /** An index that points to a stage without a name: the stage is dropped. */
  lemma UnnamedIsLost()
    ensures var stages := [Stage("", "golang", []), Stage("", "scratch", [Copy("0", "app")])];
      var ks, at := Left(stages, 1, ""), NewIndex(stages, 1, "");
      ks == [1] && at == 0 && Meaning(Pick(stages, [1]), 0) != Meaning(stages, 1)
  {
    var stages := [Stage("", "golang", []), Stage("", "scratch", [Copy("0", "app")])];
    ParseItoa(0);
    OneMark(stages, Copy("0", "app"), "");
    assert Lower("0") == "0";
    hide Itoa, Atoi, Left, NewIndex, Lower, ParseInt;
    assert Pick(stages, [1]) == [stages[1]];
    assert SourceOf(stages, 1, "0") == Earlier(0);
    assert SourceOf([stages[1]], 0, "0") == Outside("0");
    OtherSource(stages, 1, [stages[1]], 0, Copy("0", "app"), 0);
  }

  /** An index is not renumbered: after the first stage is dropped it points elsewhere. */
  lemma IndexIsNotRenumbered()
    ensures var stages := [Stage("a", "golang", []), Stage("b", "golang", []), Stage("", "scratch", [Copy("1", "app")])];
      var ks, at := Left(stages, 2, ""), NewIndex(stages, 2, "");
      ks == [1, 2] && at == 1 && Meaning(Pick(stages, [1, 2]), 1) != Meaning(stages, 2)
  {
    var stages := [Stage("a", "golang", []), Stage("b", "golang", []), Stage("", "scratch", [Copy("1", "app")])];
    var c, ks := Copy("1", "app"), [1, 2];
    ParseItoa(1);
    assert Lower("1") == "1";
    hide Itoa, Atoi, Left, NewIndex, KeptBefore, Marks, Lower, ParseInt, Meaning, Steps;
    SecondKept(stages, c);
    assert Pick(stages, ks) == stages[1..];
    assert SourceOf(stages, 2, "1") == Earlier(1);
    assert SourceOf(stages[1..], 1, "1") == Outside("1");
    OtherSource(stages, 2, stages[1..], 1, c, 1);
  }

  /** A copy from an earlier stage and one from an image outside are not the same. */
  lemma OtherSource(stages: seq<Stage>, j: nat, others: seq<Stage>, k: nat, c: Instruction, i: nat)
    requires j < |stages| && k < |others| && stages[j].commands == others[k].commands == [c] && c.Copy?
    requires SourceOf(stages, j, c.from) == Earlier(i) && SourceOf(others, k, c.from) == Outside(c.from)
    ensures Meaning(others, k) != Meaning(stages, j)
  {
    hide Meaning, Steps, SourceOf;
    OneStep(stages, j, c);
    OneStep(others, k, c);
  }

  lemma SecondKept(stages: seq<Stage>, c: Instruction)
    requires |stages| == 3 && stages[2].commands == [c] && stages[1].commands == [] && c.Copy?
    requires stages[1].name != "" && CopyName(stages, c.from) == stages[1].name
    requires stages[0].name !in {stages[1].name, stages[1].baseName, stages[2].baseName}
    ensures Left(stages, 2, "") == [1, 2] && NewIndex(stages, 2, "") == 1
  {
    SingleCopy(stages, c);
    assert CopyNames(stages, []) == {};
    assert Marks(stages, 2, 3) == {};
    assert Marks(stages, 2, 2) == {stages[1].name};
    assert Marks(stages, 2, 1) == {stages[1].name, stages[1].baseName};
    assert Marks(stages, 2, 0) == Marks(stages, 2, 1);
    assert KeptBefore(stages, 2, 0) == [];
    assert KeptBefore(stages, 2, 1) == [];
    assert KeptBefore(stages, 2, 2) == [1];
  }

  /** A copy by index from a stage that keeps its place means the same, though a stage behind that is dropped. */
  lemma IndexStays()
    ensures KeepsFirst([Stage("a", "golang", []), Stage("b", "golang", []), Stage("", "scratch", [Copy("0", "app")])])
  {
    var stages := [Stage("a", "golang", []), Stage("b", "golang", []), Stage("", "scratch", [Copy("0", "app")])];
    var c := Copy("0", "app");
    ParseItoa(0);
    assert Lower("0") == "0" && Lower("golang") == "golang" && Lower("scratch") == "scratch";
    hide Itoa, Atoi, Left, NewIndex, KeptBefore, Marks, Lower, ParseInt, Meaning, Steps, KeepsFirst;
    FirstKept(stages, c);
    assert SourceOf(stages, 2, "0") == Earlier(0);
    assert forall j :: 0 <= j <= 2 ==> BaseOf(stages, j) == -1;
    FirstStays(stages, c);
  }

  /** The second of three stages is dropped, and the third means what it meant. */
  ghost predicate KeepsFirst(stages: seq<Stage>) {
    && |stages| == 3 && Left(stages, 2, "") == [0, 2] && NewIndex(stages, 2, "") == 1
    && AllStay(stages, 2, [0, 2]) && !ByName(stages, 2)
    && Meaning(Pick(stages, [0, 2]), 1) == Meaning(stages, 2)
  }

  lemma FirstStays(stages: seq<Stage>, c: Instruction)
    requires |stages| == 3 && stages[0].commands == stages[1].commands == [] && stages[2].commands == [c] && c.Copy?
    requires SourceOf(stages, 2, c.from) == Earlier(0) && ParseInt(c.from).Some?
    requires forall j :: 0 <= j <= 2 ==> BaseOf(stages, j) == -1
    requires Left(stages, 2, "") == [0, 2] && NewIndex(stages, 2, "") == 1
    ensures KeepsFirst(stages)
  {
    hide Left, NewIndex, ParseInt, Meaning, Steps, SourceOf, BaseOf;
    var ks: seq<nat> := [0, 2];
    forall j | 0 <= j <= 2 ensures RefsStay(stages, ks, j) {
      assert ks[0] == 0;
      assert j == 0 || j == 1 || j == 2;
    }
    assert Needs(stages, 2, 2) && c in stages[2].commands;
    assert !CopiesByName(stages, 2);
    PruningKeepsMeaning(stages, 2, "");
  }

  lemma FirstKept(stages: seq<Stage>, c: Instruction)
    requires |stages| == 3 && stages[2].commands == [c] && c.Copy?
    requires stages[0].name != "" && CopyName(stages, c.from) == stages[0].name && stages[0].commands == []
    requires stages[1].name !in {stages[0].name, stages[0].baseName, stages[2].baseName}
    requires stages[1].name != "" && stages[0].name != stages[2].baseName
    ensures Left(stages, 2, "") == [0, 2] && NewIndex(stages, 2, "") == 1
  {
    SingleCopy(stages, c);
    assert CopyNames(stages, []) == {};
    assert Marks(stages, 2, 3) == {};
    assert Marks(stages, 2, 2) == {stages[0].name};
    assert Marks(stages, 2, 1) == Marks(stages, 2, 2);
    assert Marks(stages, 2, 0) == {stages[0].name, stages[0].baseName};
    assert KeptBefore(stages, 2, 0) == [];
    assert KeptBefore(stages, 2, 1) == [0];
    assert KeptBefore(stages, 2, 2) == [0];
  }

  lemma SingleCopy(stages: seq<Stage>, c: Instruction)
    requires c.Copy?
    ensures CopyNames(stages, [c]) == {CopyName(stages, c.from)}
  {
    assert c in [c];
  }

  lemma OneMark(stages: seq<Stage>, c: Instruction, name: string)
    requires |stages| == 2 && stages[1].commands == [c] && c.Copy? && CopyName(stages, c.from) == name
    requires stages[0].name != stages[1].baseName && (stages[0].name == "" || stages[0].name != name)
    ensures Left(stages, 1, "") == [1] && NewIndex(stages, 1, "") == 0
  {
    SingleCopy(stages, c);
    assert Marks(stages, 1, 2) == {};
    assert Marks(stages, 1, 1) == {name};
    assert Marks(stages, 1, 0) == {name};
    assert KeptBefore(stages, 1, 0) == [];
    assert KeptBefore(stages, 1, 1) == [];
  }

  lemma OneStep(stages: seq<Stage>, j: nat, c: Instruction)
    requires j < |stages| && stages[j].commands == [c]
    ensures Meaning(stages, j).steps == [StepOf(stages, j, c)]
  {
    hide StepOf;
    var cs := [c];
    assert cs[..0] == [];
    assert Steps(stages, j, []) == [];
    assert Steps(stages, j, cs) == Steps(stages, j, cs[..0]) + [StepOf(stages, j, c)];
  }

  /**
   * A stage can be kept for a name that means another image, without what it is itself built on: here
   * `alpine` is kept because `b` is built on an image of that name, but `d` is dropped.
   */
  lemma KeptWithoutItsBase()
    ensures var stages := [Stage("d", "x", []), Stage("b", "alpine", []), Stage("alpine", "d", []), Stage("", "x", [Copy("b", "app")])];
      Left(stages, 3, "") == [1, 2, 3] && BaseOf(stages, 2) == 0 && BaseOf(Pick(stages, [1, 2, 3]), 1) == -1
      && ByName(stages, 3) && !Needs(stages, 3, 2)
  {
    assert Lower("d") == "d" && Lower("x") == "x" && Lower("b") == "b" && Lower("alpine") == "alpine";
    assert !AllDigits("b") by { assert "b"[0] == 'b'; }
    OrphanIsKept("d", "b", "alpine", "x", "app");
  }

  lemma OrphanIsKept(d: string, b: string, a: string, x: string, text: string)
    requires Lower(d) == d && Lower(b) == b && Lower(a) == a && Lower(x) == x && ParseInt(b) == None
    requires d != "" && b != "" && a != "" && x != "" && d != b && d != a && b != a && x !in {d, b, a}
    ensures var stages := [Stage(d, x, []), Stage(b, a, []), Stage(a, d, []), Stage("", x, [Copy(b, text)])];
      Left(stages, 3, "") == [1, 2, 3] && BaseOf(stages, 2) == 0 && BaseOf(Pick(stages, [1, 2, 3]), 1) == -1
      && ByName(stages, 3) && !Needs(stages, 3, 2)
  {
    var c := Copy(b, text);
    var stages := [Stage(d, x, []), Stage(b, a, []), Stage(a, d, []), Stage("", x, [c])];
    hide Left, Lower, ParseInt, Needs, Meaning, Marks, KeptBefore, Steps;
    SingleCopy(stages, c);
    LastThreeKept(stages);
    assert BaseOf(stages, 2) == 0 && BaseOf(stages, 1) == -1 && BaseOf(stages, 0) == -1 && BaseOf(stages, 3) == -1;
    assert SourceOf(stages, 3, b) == Earlier(1);
    assert Pick(stages, [1, 2, 3]) == stages[1..];
    UnusedIsNotNeeded(stages, 3, 2);
  }

  lemma UnusedIsNotNeeded(stages: seq<Stage>, idx: nat, i: nat)
    requires i < idx < |stages| && forall j :: i < j <= idx ==> !Uses(stages, j, i)
    ensures !Needs(stages, idx, i)
  {
    hide Uses;
  }

  lemma LastThreeKept(stages: seq<Stage>)
    requires |stages| == 4 && forall i :: 0 <= i < 3 ==> stages[i].commands == []
    requires var d, b, a, x := stages[0].name, stages[1].name, stages[2].name, stages[3].baseName;
      && d != "" && b != "" && a != "" && x != "" && d != b && d != a && b != a && x !in {d, b, a}
      && stages[0].baseName == x && stages[1].baseName == a && stages[2].baseName == d && stages[3].name == ""
      && CopyNames(stages, stages[3].commands) == {b}
    ensures Left(stages, 3, "") == [1, 2, 3]
  {
    var b, a := stages[1].name, stages[2].name;
    assert CopyNames(stages, []) == {};
    assert Marks(stages, 3, 4) == {};
    assert Marks(stages, 3, 3) == {b};
    assert Marks(stages, 3, 2) == {b};
    assert Marks(stages, 3, 1) == {b, a};
    assert Marks(stages, 3, 0) == {b, a};
    hide Marks;
    assert KeptBefore(stages, 3, 0) == [];
    assert KeptBefore(stages, 3, 1) == [];
    assert KeptBefore(stages, 3, 2) == [1];
    assert KeptBefore(stages, 3, 3) == [1, 2];
  }
}

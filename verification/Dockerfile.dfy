/** Which stages of a Dockerfile are built, and what the target stage means. */
module Dockerfiles {
  import opened Options
  import opened CompositeKeys

  datatype Instruction =
    | Copy(from: string, text: string)
    | Other(text: string)

  datatype Stage = Stage(name: string, baseName: string, commands: seq<Instruction>)

  const INT_MAX: int := 0x7fff_ffff_ffff_ffff

  predicate AllDigits(s: string) {
    s != [] && forall i :: 0 <= i < |s| ==> '0' <= s[i] <= '9'
  }

  /** `strconv.Atoi` */
  function ParseInt(s: string): Option<int> {
    var digits := if s != [] && (s[0] == '-' || s[0] == '+') then s[1..] else s;
    if !AllDigits(digits) then None
    else
      var n: int := if s[0] == '-' then 0 - Atoi(digits) else Atoi(digits);
      if -INT_MAX - 1 <= n <= INT_MAX then Some(n) else None
  }

  lemma {:induction false} ItoaDigits(n: nat)
    ensures AllDigits(Itoa(n))
  {
    if n >= 10 {
      ItoaDigits(n / 10);
    }
  }

  lemma ParseItoa(n: nat)
    requires n <= INT_MAX
    ensures ParseInt(Itoa(n)) == Some(n)
  {
    ItoaDigits(n);
    AtoiItoa(n);
  }

  function Lower(s: string): (r: string)
    ensures |r| == |s|
  {
    seq(|s|, i requires 0 <= i < |s| => if 'A' <= s[i] <= 'Z' then s[i] - 'A' + 'a' else s[i])
  }

  /** The first of the first `n` stages that has the name, or -1. */
  function FirstNamed(stages: seq<Stage>, name: string, n: nat): (r: int)
    requires n <= |stages|
    ensures -1 <= r < n
    ensures forall i :: 0 <= i < n && (r == -1 || i < r) ==> stages[i].name != name
    ensures r != -1 ==> stages[r].name == name
  {
    if n == 0 then -1
    else
      var r := FirstNamed(stages, name, n - 1);
      if r != -1 then r else if stages[n - 1].name == name then n - 1 else -1
  }

  /** The last of the first `n` stages that has the name, or -1. */
  function LastNamed(stages: seq<Stage>, name: string, n: nat): (r: int)
    requires n <= |stages|
    ensures -1 <= r < n
    ensures forall i :: 0 <= i < n && r < i ==> stages[i].name != name
    ensures r != -1 ==> stages[r].name == name
  {
    if n == 0 then -1
    else if stages[n - 1].name == name then n - 1
    else LastNamed(stages, name, n - 1)
  }

  // ---------------------------------------------------------------------------------------------
  // What a stage means
  // ---------------------------------------------------------------------------------------------

  /** The stage that stage `j` is built on, or -1 if its base is an image from outside. */
  function BaseOf(stages: seq<Stage>, j: nat): (r: int)
    requires j < |stages|
    ensures -1 <= r < j
  {
    FirstNamed(stages, Lower(stages[j].baseName), j)
  }

  datatype Source = Context | Earlier(index: nat) | Itself | Outside(ref: string)

  /** Where `COPY --from` in stage `j` copies from: names are looked up first, then indices. */
  function SourceOf(stages: seq<Stage>, j: nat, from: string): (r: Source)
    requires j < |stages|
    ensures r.Earlier? ==> r.index < j
  {
    if from == "" then Context
    else
      var named := LastNamed(stages, Lower(from), j + 1);
      if named == j then Itself
      else if named != -1 then Earlier(named)
      else
        match ParseInt(from)
        case Some(k) => if 0 <= k < j then Earlier(k) else Outside(from)
        case None => Outside(from)
  }

  /** An image as a term: what it is built from, and nothing about how it is stored or numbered. */
  datatype Image = Pulled(ref: string) | Built(base: Image, steps: seq<Step>)

  datatype Step =
    | Executed(text: string)
    | CopiedFromContext(text: string)
    | CopiedFromStage(image: Image, text: string)
    | CopiedFromItself(text: string)
    | CopiedFromImage(ref: string, text: string)

  function Meaning(stages: seq<Stage>, j: nat): Image
    requires j < |stages|
    decreases j, |stages[j].commands| + 1
  {
    var base := BaseOf(stages, j);
    Built(if base == -1 then Pulled(stages[j].baseName) else Meaning(stages, base), Steps(stages, j, stages[j].commands))
  }

  function Steps(stages: seq<Stage>, j: nat, commands: seq<Instruction>): seq<Step>
    requires j < |stages|
    decreases j, |commands|
  {
    if commands == [] then [] else Steps(stages, j, commands[..|commands| - 1]) + [StepOf(stages, j, commands[|commands| - 1])]
  }

  function StepOf(stages: seq<Stage>, j: nat, c: Instruction): Step
    requires j < |stages|
    decreases j, 0
  {
    match c
    case Other(text) => Executed(text)
    case Copy(from, text) =>
      match SourceOf(stages, j, from)
      case Context => CopiedFromContext(text)
      case Itself => CopiedFromItself(text)
      case Outside(ref) => CopiedFromImage(ref, text)
      case Earlier(i) => CopiedFromStage(Meaning(stages, i), text)
  }

  /** Stage `j` is built on stage `i` or copies from it. */
  ghost predicate Uses(stages: seq<Stage>, j: nat, i: nat)
    requires j < |stages|
  {
    BaseOf(stages, j) == i || exists c :: c in stages[j].commands && c.Copy? && SourceOf(stages, j, c.from) == Earlier(i)
  }

  /** Stage `idx` uses stage `i`, directly or through other stages. */
  ghost predicate Needs(stages: seq<Stage>, idx: nat, i: nat)
    requires idx < |stages|
    decreases idx - i
  {
    i == idx || exists j :: i < j <= idx && Uses(stages, j, i) && Needs(stages, idx, j)
  }

  /**
   * The stages that the target needs refer to others by the names these have, letter for letter: no
   * indices, and no empty names. What other stages refer to, which images from outside are used, and how
   * they are spelled, does not matter.
   */
  ghost predicate ByName(stages: seq<Stage>, idx: nat)
    requires idx < |stages|
  {
    forall j :: 0 <= j <= idx && Needs(stages, idx, j) ==> BaseByName(stages, j) && CopiesByName(stages, j)
  }

  ghost predicate BaseByName(stages: seq<Stage>, j: nat)
    requires j < |stages|
  {
    var base := BaseOf(stages, j);
    base != -1 ==> stages[base].name == stages[j].baseName && stages[base].name != ""
  }

  ghost predicate CopiesByName(stages: seq<Stage>, j: nat)
    requires j < |stages|
  {
    forall c :: c in stages[j].commands && c.Copy? && SourceOf(stages, j, c.from).Earlier? ==>
      stages[SourceOf(stages, j, c.from).index].name == c.from && ParseInt(c.from).None?
  }

  // ---------------------------------------------------------------------------------------------
  // The stages that are kept
  // ---------------------------------------------------------------------------------------------

  /** The name that a `COPY --from` marks. */
  function CopyName(stages: seq<Stage>, from: string): string {
    match ParseInt(from)
    case Some(k) => if 0 <= k < |stages| then stages[k].name else ""
    case None => from
  }

  function CopyNames(stages: seq<Stage>, commands: seq<Instruction>): set<string> {
    set c | c in commands && c.Copy? :: CopyName(stages, c.from)
  }

  /** An index that no stage has: looking its name up is an error. */
  predicate BadIndex(stages: seq<Stage>, c: Instruction) {
    c.Copy? && match ParseInt(c.from) { case Some(k) => !(0 <= k < |stages|) case None => false }
  }

  /** The pass looks into stage `i`, given the names marked by the stages after it. */
  predicate LooksInto(stages: seq<Stage>, idx: nat, i: nat, marks: set<string>)
    requires i <= idx < |stages|
  {
    (stages[i].name != "" && stages[i].name in marks) || stages[i].name == stages[idx].baseName || i == idx
  }

  /** The names marked by stages `i` to `idx`, last one first. */
  function Marks(stages: seq<Stage>, idx: nat, i: nat): set<string>
    requires i <= idx + 1 && idx < |stages|
    decreases idx + 1 - i
  {
    if i == idx + 1 then {}
    else
      var marks := Marks(stages, idx, i + 1);
      if !LooksInto(stages, idx, i, marks) then marks
      else marks + CopyNames(stages, stages[i].commands) + if i == idx then {} else {stages[i].baseName}
  }

  predicate Kept(stages: seq<Stage>, idx: nat, i: nat)
    requires i < idx < |stages|
  {
    stages[i].name != "" && (stages[i].name in Marks(stages, idx, 0) || stages[i].name == stages[idx].baseName)
  }

  /** The kept stages among the first `n`. */
  function KeptBefore(stages: seq<Stage>, idx: nat, n: nat): seq<nat>
    requires n <= idx < |stages|
  {
    if n == 0 then [] else KeptBefore(stages, idx, n - 1) + if Kept(stages, idx, n - 1) then [n - 1] else []
  }

  predicate InRange(stages: seq<Stage>, ks: seq<nat>) {
    forall k :: 0 <= k < |ks| ==> ks[k] < |stages|
  }

  function Pick(stages: seq<Stage>, ks: seq<nat>): seq<Stage>
    requires InRange(stages, ks)
  {
    seq(|ks|, i requires 0 <= i < |ks| => stages[ks[i]])
  }

  /** The stages are pruned, unless there is no target and nothing refers to anything. */
  predicate Prunes(stages: seq<Stage>, idx: nat, target: string)
    requires idx < |stages|
  {
    target != "" || Marks(stages, idx, 0) != {}
  }

  /** The indices of the stages that are left, in order. */
  function Left(stages: seq<Stage>, idx: nat, target: string): seq<nat>
    requires idx < |stages|
  {
    if !Prunes(stages, idx, target) then seq(|stages|, i => i)
    else (if Marks(stages, idx, 0) == {} then [] else KeptBefore(stages, idx, idx)) + [idx]
  }

  function NewIndex(stages: seq<Stage>, idx: nat, target: string): nat
    requires idx < |stages|
  {
    if Prunes(stages, idx, target) then |Left(stages, idx, target)| - 1 else idx
  }

  ghost predicate Ascending(ks: seq<nat>) {
    forall a, b :: 0 <= a < b < |ks| ==> ks[a] < ks[b]
  }

  lemma {:induction false} KeptBeforeExact(stages: seq<Stage>, idx: nat, n: nat)
    requires n <= idx < |stages|
    ensures Ascending(KeptBefore(stages, idx, n))
    ensures forall i: nat :: i in KeptBefore(stages, idx, n) <==> i < n && Kept(stages, idx, i)
    ensures |KeptBefore(stages, idx, n)| <= n
  {
    hide Kept;
    if n > 0 {
      var before := KeptBefore(stages, idx, n - 1);
      KeptBeforeExact(stages, idx, n - 1);
      forall a | 0 <= a < |before| ensures before[a] < n - 1 {
        assert before[a] in before;
      }
    }
  }

  lemma KeptMeansMarked(stages: seq<Stage>, idx: nat, i: nat)
    requires i < idx < |stages| && Kept(stages, idx, i)
    ensures Marks(stages, idx, 0) != {}
  {
    if stages[i].name == stages[idx].baseName {
      MarksGrow(stages, idx, 0, i);
      assert stages[i].baseName in Marks(stages, idx, i);
    }
  }

  /** What is left, whether or not anything was pruned. */
  lemma LeftExact(stages: seq<Stage>, idx: nat, target: string)
    requires idx < |stages|
    ensures var ks, at := Left(stages, idx, target), NewIndex(stages, idx, target);
      && Ascending(ks) && InRange(stages, ks)
      && at < |ks| && ks[at] == idx
      && (forall i :: 0 <= i < idx && Kept(stages, idx, i) ==> i in ks)
  {
    hide Kept, Marks;
    KeptBeforeExact(stages, idx, idx);
    var kept := KeptBefore(stages, idx, idx);
    forall a | 0 <= a < |kept| ensures kept[a] < idx {
      assert kept[a] in kept;
    }
    forall i | 0 <= i < idx && Kept(stages, idx, i) ensures Marks(stages, idx, 0) != {} {
      KeptMeansMarked(stages, idx, i);
    }
    if !Prunes(stages, idx, target) {
      var all := seq(|stages|, i => i);
      forall i | 0 <= i < idx ensures i in all {
        assert all[i] == i;
      }
    }
  }

  lemma {:induction false} MarksGrow(stages: seq<Stage>, idx: nat, i: nat, j: nat)
    requires i <= j <= idx + 1 && idx < |stages|
    ensures Marks(stages, idx, j) <= Marks(stages, idx, i)
    decreases j - i
  {
    if i < j {
      MarksGrow(stages, idx, i + 1, j);
    }
  }

  // ---------------------------------------------------------------------------------------------
  // Nothing that is needed is lost
  // ---------------------------------------------------------------------------------------------

  /** The names that the pass marks for what the target needs are those of the stages meant, by name or by index. */
  ghost predicate MarksMeant(stages: seq<Stage>, idx: nat)
    requires idx < |stages|
  {
    forall j :: 0 <= j <= idx && Needs(stages, idx, j) ==> BaseByName(stages, j) && CopiesMarked(stages, j)
  }

  ghost predicate CopiesMarked(stages: seq<Stage>, j: nat)
    requires j < |stages|
  {
    forall c :: c in stages[j].commands && c.Copy? && SourceOf(stages, j, c.from).Earlier? ==>
      var name := stages[SourceOf(stages, j, c.from).index].name; name != "" && CopyName(stages, c.from) == name
  }

  lemma ByNameMarks(stages: seq<Stage>, idx: nat)
    requires idx < |stages| && ByName(stages, idx)
    ensures MarksMeant(stages, idx)
  {
    hide Needs;
    forall j | 0 <= j <= idx && Needs(stages, idx, j) ensures CopiesMarked(stages, j) {
      assert CopiesByName(stages, j);
    }
  }

  /** The pass marks the names of what a stage uses when it looks into the stage. */
  lemma UsedIsMarked(stages: seq<Stage>, idx: nat, j: nat, i: nat)
    requires i < j <= idx < |stages| && MarksMeant(stages, idx) && Needs(stages, idx, j) && Uses(stages, j, i)
    requires LooksInto(stages, idx, j, Marks(stages, idx, j + 1))
    ensures stages[i].name != "" && (stages[i].name in Marks(stages, idx, j) || (j == idx && stages[i].name == stages[idx].baseName))
  {
    assert BaseByName(stages, j) && CopiesMarked(stages, j);
    if BaseOf(stages, j) != i {
      var c :| c in stages[j].commands && c.Copy? && SourceOf(stages, j, c.from) == Earlier(i);
      assert CopyName(stages, c.from) == stages[i].name;
      assert stages[i].name in CopyNames(stages, stages[j].commands);
    }
  }

  lemma MarkedIsKept(stages: seq<Stage>, idx: nat, i: nat, j: nat)
    requires i < j <= idx < |stages| && stages[i].name != ""
    requires stages[i].name in Marks(stages, idx, j) || stages[i].name == stages[idx].baseName
    ensures LooksInto(stages, idx, i, Marks(stages, idx, i + 1)) && Kept(stages, idx, i)
  {
    hide Marks;
    MarksGrow(stages, idx, i + 1, j);
    MarksGrow(stages, idx, 0, j);
  }

  lemma NeedsVia(stages: seq<Stage>, idx: nat, i: nat) returns (j: nat)
    requires i < idx < |stages| && Needs(stages, idx, i)
    ensures i < j <= idx && Uses(stages, j, i) && Needs(stages, idx, j)
  {
    j :| i < j <= idx && Uses(stages, j, i) && Needs(stages, idx, j);
  }

  /** The pass looks into every stage that the target needs, and keeps it. */
  lemma {:induction false} NeededIsKept(stages: seq<Stage>, idx: nat, i: nat)
    requires i <= idx < |stages| && MarksMeant(stages, idx) && Needs(stages, idx, i)
    ensures LooksInto(stages, idx, i, Marks(stages, idx, i + 1))
    ensures i < idx ==> Kept(stages, idx, i)
    decreases idx - i
  {
    hide Marks, Uses, MarksMeant, Needs, Kept;
    if i < idx {
      var j := NeedsVia(stages, idx, i);
      NeededIsKept(stages, idx, j);
      UsedIsMarked(stages, idx, j, i);
      MarkedIsKept(stages, idx, i, j);
    }
  }

  /** Looking a name up in a selection of the stages finds the same stage, if it is in the selection. */
  lemma PickedBase(stages: seq<Stage>, ks: seq<nat>, k: nat)
    requires Ascending(ks) && InRange(stages, ks) && k < |ks|
    requires BaseOf(stages, ks[k]) != -1 ==> BaseOf(stages, ks[k]) in ks
    ensures var b, c := BaseOf(stages, ks[k]), BaseOf(Pick(stages, ks), k);
      if b == -1 then c == -1 else c != -1 && ks[c] == b
  {
    var picked, b := Pick(stages, ks), BaseOf(stages, ks[k]);
    var c := BaseOf(picked, k);
    var name := Lower(stages[ks[k]].baseName);
    forall q | 0 <= q < k && (b == -1 || ks[q] < b) ensures picked[q].name != name {
      assert ks[q] < ks[k];
    }
    if b != -1 {
      var p :| 0 <= p < |ks| && ks[p] == b;
      assert p < k && picked[p].name == name;
    }
  }

  lemma PickedLast(stages: seq<Stage>, ks: seq<nat>, k: nat, name: string)
    requires Ascending(ks) && InRange(stages, ks) && k < |ks|
    requires var r := LastNamed(stages, name, ks[k] + 1); r != -1 ==> r in ks
    ensures var r, q := LastNamed(stages, name, ks[k] + 1), LastNamed(Pick(stages, ks), name, k + 1);
      if r == -1 then q == -1 else q != -1 && ks[q] == r
  {
    var picked, r := Pick(stages, ks), LastNamed(stages, name, ks[k] + 1);
    var q := LastNamed(picked, name, k + 1);
    forall x | 0 <= x <= k && r < ks[x] ensures picked[x].name != name {
      assert ks[x] <= ks[k];
    }
    if r != -1 {
      var p :| 0 <= p < |ks| && ks[p] == r;
      assert p <= k && picked[p].name == name;
    }
  }

  /** The reference is resolved as an index: no stage up to this one has the name. */
  predicate ByIndex(stages: seq<Stage>, j: nat, from: string)
    requires j < |stages|
  {
    from != "" && LastNamed(stages, Lower(from), j + 1) == -1
  }

  /** The stage is in the selection, and where it was if it is referred to by index. */
  ghost predicate Stays(ks: seq<nat>, i: nat, byIndex: bool) {
    i in ks && (byIndex ==> i < |ks| && ks[i] == i)
  }

  ghost predicate SourceStays(stages: seq<Stage>, ks: seq<nat>, j: nat, from: string)
    requires j < |stages|
  {
    var s := SourceOf(stages, j, from);
    s.Earlier? ==> Stays(ks, s.index, ByIndex(stages, j, from))
  }

  /** Everything that the stage refers to stays. */
  ghost predicate RefsStay(stages: seq<Stage>, ks: seq<nat>, j: nat)
    requires j < |stages|
  {
    && (BaseOf(stages, j) != -1 ==> Stays(ks, BaseOf(stages, j), false))
    && forall c :: c in stages[j].commands && c.Copy? ==> SourceStays(stages, ks, j, c.from)
  }

  /** In the selection the reference leads to the very stage, or to whatever else, that it led to before. */
  ghost predicate SourceKept(stages: seq<Stage>, ks: seq<nat>, k: nat, from: string)
    requires InRange(stages, ks) && k < |ks|
  {
    var s, t := SourceOf(stages, ks[k], from), SourceOf(Pick(stages, ks), k, from);
    if s.Earlier? then t.Earlier? && ks[t.index] == s.index else t == s
  }

  ghost predicate BaseKept(stages: seq<Stage>, ks: seq<nat>, k: nat)
    requires InRange(stages, ks) && k < |ks|
  {
    var b, c := BaseOf(stages, ks[k]), BaseOf(Pick(stages, ks), k);
    if b == -1 then c == -1 else c != -1 && ks[c] == b
  }

  ghost predicate RefsKept(stages: seq<Stage>, ks: seq<nat>, k: nat)
    requires InRange(stages, ks) && k < |ks|
  {
    BaseKept(stages, ks, k) && forall c :: c in stages[ks[k]].commands && c.Copy? ==> SourceKept(stages, ks, k, c.from)
  }

  /** A copy leads to the very same stage in a selection if and only if that stays. */
  lemma SourceExact(stages: seq<Stage>, ks: seq<nat>, k: nat, from: string)
    requires Ascending(ks) && InRange(stages, ks) && k < |ks|
    ensures SourceKept(stages, ks, k, from) <==> SourceStays(stages, ks, ks[k], from)
  {
    var s := SourceOf(stages, ks[k], from);
    if from != "" && (s.Earlier? ==> s.index in ks) {
      AscendingAbove(ks, k);
      PickedLast(stages, ks, k, Lower(from));
      if s.Earlier? && s.index < |ks| && ks[s.index] == s.index {
        assert s.index < k;
      }
    }
  }

  /** References of a stage lead to the very same stages in a selection if and only if those stay. */
  lemma RefsExact(stages: seq<Stage>, ks: seq<nat>, k: nat)
    requires Ascending(ks) && InRange(stages, ks) && k < |ks|
    ensures RefsKept(stages, ks, k) <==> RefsStay(stages, ks, ks[k])
  {
    hide SourceKept, SourceStays;
    forall c | c in stages[ks[k]].commands && c.Copy?
      ensures SourceKept(stages, ks, k, c.from) <==> SourceStays(stages, ks, ks[k], c.from)
    {
      SourceExact(stages, ks, k, c.from);
    }
    if BaseOf(stages, ks[k]) == -1 || BaseOf(stages, ks[k]) in ks {
      PickedBase(stages, ks, k);
    }
  }

  lemma {:induction false} AscendingAbove(ks: seq<nat>, k: nat)
    requires Ascending(ks) && k < |ks|
    ensures ks[k] >= k
  {
    if k > 0 {
      AscendingAbove(ks, k - 1);
    }
  }

  /** Everything that stage `idx` needs refers to what stays. */
  ghost predicate AllStay(stages: seq<Stage>, idx: nat, ks: seq<nat>)
    requires idx < |stages|
  {
    forall j :: 0 <= j <= idx && Needs(stages, idx, j) ==> RefsStay(stages, ks, j)
  }

  lemma UsedIsNeeded(stages: seq<Stage>, idx: nat, j: nat, i: nat)
    requires i < j <= idx < |stages| && Needs(stages, idx, j) && Uses(stages, j, i)
    ensures Needs(stages, idx, i)
  {
  }

  /** A needed stage denotes the same image in every selection where all that is needed refers to what stays. */
  lemma {:induction false} PickedMeaning(stages: seq<Stage>, idx: nat, ks: seq<nat>, k: nat)
    requires idx < |stages| && Ascending(ks) && InRange(stages, ks) && AllStay(stages, idx, ks)
    requires k < |ks| && ks[k] <= idx && Needs(stages, idx, ks[k])
    ensures Meaning(Pick(stages, ks), k) == Meaning(stages, ks[k])
    decreases ks[k], |stages[ks[k]].commands| + 1
  {
    hide Needs, AllStay, SourceKept;
    var j, base := ks[k], BaseOf(stages, ks[k]);
    NeededRefsKept(stages, idx, ks, k);
    if base != -1 {
      UsedIsNeeded(stages, idx, j, base);
      PickedMeaning(stages, idx, ks, BaseOf(Pick(stages, ks), k));
    }
    PickedSteps(stages, idx, ks, k, stages[j].commands);
  }

  lemma NeededRefsKept(stages: seq<Stage>, idx: nat, ks: seq<nat>, k: nat)
    requires idx < |stages| && Ascending(ks) && InRange(stages, ks) && AllStay(stages, idx, ks)
    requires k < |ks| && ks[k] <= idx && Needs(stages, idx, ks[k])
    ensures RefsKept(stages, ks, k)
  {
    hide Needs, RefsStay, RefsKept;
    RefsExact(stages, ks, k);
  }

  lemma {:induction false} PickedSteps(stages: seq<Stage>, idx: nat, ks: seq<nat>, k: nat, commands: seq<Instruction>)
    requires idx < |stages| && Ascending(ks) && InRange(stages, ks) && AllStay(stages, idx, ks)
    requires k < |ks| && ks[k] <= idx && Needs(stages, idx, ks[k])
    requires commands <= stages[ks[k]].commands
    ensures Steps(Pick(stages, ks), k, commands) == Steps(stages, ks[k], commands)
    decreases ks[k], |commands|
  {
    hide Needs, AllStay;
    if commands != [] {
      var c := commands[|commands| - 1];
      assert c == stages[ks[k]].commands[|commands| - 1];
      PickedSteps(stages, idx, ks, k, commands[..|commands| - 1]);
      PickedStep(stages, idx, ks, k, c);
    }
  }

  lemma {:induction false} PickedStep(stages: seq<Stage>, idx: nat, ks: seq<nat>, k: nat, c: Instruction)
    requires idx < |stages| && Ascending(ks) && InRange(stages, ks) && AllStay(stages, idx, ks)
    requires k < |ks| && ks[k] <= idx && Needs(stages, idx, ks[k])
    requires c in stages[ks[k]].commands
    ensures StepOf(Pick(stages, ks), k, c) == StepOf(stages, ks[k], c)
    decreases ks[k], 0
  {
    hide Needs, AllStay, BaseKept;
    if c.Copy? {
      var s := SourceOf(stages, ks[k], c.from);
      NeededRefsKept(stages, idx, ks, k);
      assert SourceKept(stages, ks, k, c.from);
      if s.Earlier? {
        assert Uses(stages, ks[k], s.index);
        UsedIsNeeded(stages, idx, ks[k], s.index);
        PickedMeaning(stages, idx, ks, SourceOf(Pick(stages, ks), k, c.from).index);
      }
    }
  }

  /**
   * Dead-stage elimination preserves meaning: if everything that the target needs refers to stages that
   * are kept, and to those that it refers to by index where they were, the image of the target is the
   * same term before and after, and the new index names the target.
   */
  lemma PruningKeepsMeaning(stages: seq<Stage>, idx: nat, target: string)
    requires idx < |stages| && AllStay(stages, idx, Left(stages, idx, target))
    ensures var ks, at := Left(stages, idx, target), NewIndex(stages, idx, target);
      && InRange(stages, ks) && at < |ks| && ks[at] == idx
      && Meaning(Pick(stages, ks), at) == Meaning(stages, idx)
  {
    var ks, at := Left(stages, idx, target), NewIndex(stages, idx, target);
    LeftExact(stages, idx, target);
    hide Left, NewIndex, Kept, AllStay;
    PickedMeaning(stages, idx, ks, at);
  }

  /** References by name are to stages that are kept; and if no stage before the target is dropped, all stay. */
  lemma ByNameStays(stages: seq<Stage>, idx: nat, target: string)
    requires idx < |stages| && (ByName(stages, idx) || NewIndex(stages, idx, target) == idx)
    ensures AllStay(stages, idx, Left(stages, idx, target))
  {
    var ks := Left(stages, idx, target);
    LeftExact(stages, idx, target);
    hide Left, Kept, Needs, RefsStay, NewIndex;
    if NewIndex(stages, idx, target) == idx {
      UnmovedBefore(ks, idx);
      forall j | 0 <= j <= idx ensures RefsStay(stages, ks, j) {
        UnmovedRefsStay(stages, ks, idx, j);
      }
    } else {
      forall j | 0 <= j <= idx && Needs(stages, idx, j) ensures RefsStay(stages, ks, j) {
        NamedRefsStay(stages, idx, ks, j);
      }
    }
  }

  lemma UnmovedRefsStay(stages: seq<Stage>, ks: seq<nat>, idx: nat, j: nat)
    requires j <= idx < |stages| && idx < |ks| && forall i :: 0 <= i <= idx ==> ks[i] == i
    ensures RefsStay(stages, ks, j)
  {
    forall i: nat, byIndex | i <= idx ensures Stays(ks, i, byIndex) {
      assert ks[i] == i;
    }
    hide Stays;
  }

  lemma NamedRefsStay(stages: seq<Stage>, idx: nat, ks: seq<nat>, j: nat)
    requires j <= idx < |stages| && ByName(stages, idx) && Needs(stages, idx, j)
    requires forall i :: 0 <= i < idx && Kept(stages, idx, i) ==> i in ks
    ensures RefsStay(stages, ks, j)
  {
    hide Kept, Needs;
    assert BaseByName(stages, j) && CopiesByName(stages, j);
    ByNameMarks(stages, idx);
    forall i: nat | i < j && Uses(stages, j, i) ensures i in ks {
      UsedIsNeeded(stages, idx, j, i);
      NeededIsKept(stages, idx, i);
    }
    forall c | c in stages[j].commands && c.Copy? ensures SourceStays(stages, ks, j, c.from) {
      var s := SourceOf(stages, j, c.from);
      if s.Earlier? {
        assert Uses(stages, j, s.index);
      }
    }
  }

  lemma {:induction false} UnmovedBefore(ks: seq<nat>, n: nat)
    requires Ascending(ks) && n < |ks| && ks[n] == n
    ensures forall i :: 0 <= i <= n ==> ks[i] == i
    decreases n
  {
    if n > 0 {
      AscendingAbove(ks, n - 1);
      assert ks[n - 1] < ks[n];
      UnmovedBefore(ks, n - 1);
    }
  }

  /** The stages up to some stage mean what they mean in the whole list. */
  lemma PrefixMeaning(stages: seq<Stage>, n: nat)
    requires n < |stages|
    ensures Meaning(stages[..n + 1], n) == Meaning(stages, n)
  {
    var ks := seq(n + 1, i => i);
    forall j | 0 <= j <= n ensures RefsStay(stages, ks, j) {
      UnmovedRefsStay(stages, ks, n, j);
    }
    assert Pick(stages, ks) == stages[..n + 1];
    assert Needs(stages, n, n);
    hide RefsStay, Meaning, Needs;
    PickedMeaning(stages, n, ks, n);
  }

  // ---------------------------------------------------------------------------------------------
  // Nothing else is kept
  // ---------------------------------------------------------------------------------------------

  ghost predicate Mentions(stages: seq<Stage>, j: nat, name: string)
    requires j < |stages|
  {
    stages[j].baseName == name || name in CopyNames(stages, stages[j].commands)
  }

  /** The target has a base image, and where a stage's name is mentioned, the stage is meant. */
  ghost predicate Unambiguous(stages: seq<Stage>, idx: nat)
    requires idx < |stages|
  {
    stages[idx].baseName != "" &&
    forall i, j | 0 <= i <= idx && 0 <= j <= idx ::
      stages[i].name != "" && Mentions(stages, j, stages[i].name) ==> i < j && Uses(stages, j, i)
  }

  /** What is marked is mentioned by a stage that the target needs, if that holds of the stages looked into. */
  lemma {:induction false} MarkedIsNeeded(stages: seq<Stage>, idx: nat, i: nat, n: nat)
    requires i < idx < |stages| && n <= idx + 1 && Unambiguous(stages, idx)
    requires stages[i].name != "" && stages[i].name in Marks(stages, idx, n)
    ensures Needs(stages, idx, i)
    decreases idx - i, idx + 1 - n
  {
    hide Needs, Uses;
    if n <= idx && stages[i].name !in Marks(stages, idx, n + 1) {
      assert Mentions(stages, n, stages[i].name);
      assert i < n && Uses(stages, n, i);
      LookedIntoIsNeeded(stages, idx, n);
      UsedIsNeeded(stages, idx, n, i);
    } else if n <= idx {
      MarkedIsNeeded(stages, idx, i, n + 1);
    }
  }

  lemma {:induction false} LookedIntoIsNeeded(stages: seq<Stage>, idx: nat, j: nat)
    requires j <= idx < |stages| && Unambiguous(stages, idx) && LooksInto(stages, idx, j, Marks(stages, idx, j + 1))
    ensures Needs(stages, idx, j)
    decreases idx - j, idx + 2
  {
    hide Marks, Uses;
    if j < idx {
      if stages[j].name in Marks(stages, idx, j + 1) {
        MarkedIsNeeded(stages, idx, j, j + 1);
      } else {
        assert Mentions(stages, idx, stages[j].name);
        assert Needs(stages, idx, idx);
        UsedIsNeeded(stages, idx, idx, j);
      }
    }
  }

  /** The kept stages are exactly those that the target needs. */
  lemma KeptExactly(stages: seq<Stage>, idx: nat, i: nat)
    requires i < idx < |stages| && MarksMeant(stages, idx) && Unambiguous(stages, idx)
    ensures Kept(stages, idx, i) <==> Needs(stages, idx, i)
  {
    if Needs(stages, idx, i) {
      NeededIsKept(stages, idx, i);
    }
    if Kept(stages, idx, i) {
      if stages[i].name in Marks(stages, idx, 0) {
        MarkedIsNeeded(stages, idx, i, 0);
      } else {
        assert Mentions(stages, idx, stages[i].name);
        UsedIsNeeded(stages, idx, idx, i);
      }
    }
  }

  // ---------------------------------------------------------------------------------------------
  // What is left, without the marks
  // ---------------------------------------------------------------------------------------------

  /** There is a target, or the last stage copies from something or is built on a stage before it. */
  ghost predicate SomethingToPrune(stages: seq<Stage>, idx: nat, target: string)
    requires idx < |stages|
  {
    || target != ""
    || (exists c :: c in stages[idx].commands && c.Copy?)
    || (exists i :: 0 <= i < idx && stages[i].name == stages[idx].baseName)
  }

  lemma {:induction false} NothingMarked(stages: seq<Stage>, idx: nat, i: nat)
    requires i <= idx < |stages| && (forall c :: c in stages[idx].commands ==> !c.Copy?)
    requires forall i :: 0 <= i < idx ==> stages[i].name != stages[idx].baseName
    ensures Marks(stages, idx, i) == {}
    decreases idx - i
  {
    if i < idx {
      NothingMarked(stages, idx, i + 1);
    } else {
      assert Marks(stages, idx, idx + 1) == {};
      assert CopyNames(stages, stages[idx].commands) == {};
    }
  }

  lemma PrunesExact(stages: seq<Stage>, idx: nat, target: string)
    requires idx < |stages|
    ensures Prunes(stages, idx, target) <==> SomethingToPrune(stages, idx, target)
  {
    if c :| c in stages[idx].commands && c.Copy? {
      assert CopyName(stages, c.from) in Marks(stages, idx, idx);
      MarksGrow(stages, idx, 0, idx);
    } else if i :| 0 <= i < idx && stages[i].name == stages[idx].baseName {
      assert stages[i].baseName in Marks(stages, idx, i);
      MarksGrow(stages, idx, 0, i);
    } else {
      NothingMarked(stages, idx, 0);
    }
  }

  /** Some stage up to the target has the name for its base, or copies from it. */
  ghost predicate Mentioned(stages: seq<Stage>, idx: nat, name: string)
    requires idx < |stages|
  {
    exists j :: 0 <= j <= idx && Mentions(stages, j, name)
  }

  lemma {:induction false} MarkedIsMentioned(stages: seq<Stage>, idx: nat, i: nat, name: string)
    requires i <= idx + 1 && idx < |stages| && name in Marks(stages, idx, i)
    ensures Mentioned(stages, idx, name)
    decreases idx + 1 - i
  {
    hide CopyNames;
    if i <= idx {
      if name in Marks(stages, idx, i + 1) {
        MarkedIsMentioned(stages, idx, i + 1, name);
      } else {
        assert Mentions(stages, i, name);
      }
    }
  }

  /** The target and stages before it, in order, each of which has a name that is mentioned; only what is needed, if names tell. */
  ghost predicate PrunedTo(stages: seq<Stage>, idx: nat, ks: seq<nat>)
    requires idx < |stages|
  {
    && Ascending(ks) && InRange(stages, ks) && ks != [] && ks[|ks| - 1] == idx
    && (forall k :: 0 <= k < |ks| - 1 ==> stages[ks[k]].name != "" && Mentioned(stages, idx, stages[ks[k]].name))
    && (MarksMeant(stages, idx) && Unambiguous(stages, idx) ==>
          forall i: nat :: i in ks <==> i <= idx && Needs(stages, idx, i))
  }

  lemma LeftHasName(stages: seq<Stage>, idx: nat, i: nat)
    requires i < idx < |stages| && Kept(stages, idx, i)
    ensures stages[i].name != "" && Mentioned(stages, idx, stages[i].name)
  {
    if stages[i].name in Marks(stages, idx, 0) {
      MarkedIsMentioned(stages, idx, 0, stages[i].name);
    } else {
      assert Mentions(stages, idx, stages[i].name);
    }
  }

  /** What is left when stages are pruned. */
  lemma LeftIsPruned(stages: seq<Stage>, idx: nat, target: string)
    requires idx < |stages| && SomethingToPrune(stages, idx, target)
    ensures PrunedTo(stages, idx, Left(stages, idx, target))
    ensures NewIndex(stages, idx, target) == |Left(stages, idx, target)| - 1
  {
    var ks := Left(stages, idx, target);
    PrunesExact(stages, idx, target);
    LeftExact(stages, idx, target);
    LeftMembers(stages, idx, target);
    hide Left, NewIndex, Kept, Mentioned, Needs, MarksMeant, Unambiguous;
    forall k | 0 <= k < |ks| - 1 ensures stages[ks[k]].name != "" && Mentioned(stages, idx, stages[ks[k]].name) {
      assert ks[k] in ks && ks[k] < idx;
      LeftHasName(stages, idx, ks[k]);
    }
    if MarksMeant(stages, idx) && Unambiguous(stages, idx) {
      forall i: nat ensures i in ks <==> i <= idx && Needs(stages, idx, i) {
        if i < idx {
          KeptExactly(stages, idx, i);
        }
        TargetIsNeeded(stages, idx);
      }
    }
  }

  lemma TargetIsNeeded(stages: seq<Stage>, idx: nat)
    requires idx < |stages|
    ensures Needs(stages, idx, idx)
  {
  }

  lemma LeftMembers(stages: seq<Stage>, idx: nat, target: string)
    requires idx < |stages| && Prunes(stages, idx, target)
    ensures var ks := Left(stages, idx, target);
      && ks != [] && ks[|ks| - 1] == idx && NewIndex(stages, idx, target) == |ks| - 1
      && forall i: nat :: i in ks <==> i == idx || (i < idx && Kept(stages, idx, i))
  {
    hide Kept, Marks;
    KeptBeforeExact(stages, idx, idx);
    forall i | 0 <= i < idx && Kept(stages, idx, i) ensures Marks(stages, idx, 0) != {} {
      KeptMeansMarked(stages, idx, i);
    }
  }
}

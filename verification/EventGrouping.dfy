/** Recorded inputs become logical actions: a stream of inputs is grouped as it comes, holding one action back. */
module EventGrouping {
  import opened Bytes
  import opened Text
  import opened Wrappers

  datatype RawKind = RawTap | RawText | RawTextDelete | RawOther(name: nat)
  datatype Kind = Tap | DoubleTap | LongPress | TextInput | TextDelete | Other(name: nat)
  datatype Sensitivity = Unstated | NotSensitive | Sensitive | Uncertain

  /**
   An input of a device, its times in nanoseconds and its text as bytes. Where it was made and what it was made on only matter as far as they
   are equal, and `wellFormed` says that they pass checks of their own.
   */
  datatype RawInput = RawInput(
    device: string, kind: RawKind, at: int, endAt: Option<int>, text: seq<byte>, valueLength: int,
    sensitivity: Sensitivity, target: nat, place: nat, keyCode: int, confirmed: bool, wellFormed: bool)

  datatype Action = Action(
    device: string, kind: Kind, startedAt: int, finishedAt: int, text: seq<byte>, valueLength: int,
    sensitivity: Sensitivity, target: nat, place: nat, keyCode: int, confirmed: bool)

  datatype Options = Options(doubleTapWindow: int, textWindow: int, longPressMinimum: int)

  const DOUBLE_TAP_WINDOW := 300_000_000
  const TEXT_WINDOW := 750_000_000
  const LONG_PRESS_MINIMUM := 600_000_000

  /** A window that is not stated is the usual one. */
  function Normalized(o: Options): Options {
    Options(if o.doubleTapWindow <= 0 then DOUBLE_TAP_WINDOW else o.doubleTapWindow,
            if o.textWindow <= 0 then TEXT_WINDOW else o.textWindow,
            if o.longPressMinimum <= 0 then LONG_PRESS_MINIMUM else o.longPressMinimum)
  }

  predicate Acceptable(input: RawInput) {
    && Trim(input.device) != "" && input.wellFormed
    && |input.text| <= 0x10_0000 && 0 <= input.valueLength <= 0x10_0000 && 0 <= input.keyCode <= 10000
    && (input.endAt.Some? ==> input.endAt.value >= input.at)
  }

  function Stated(input: RawInput): RawInput {
    if input.sensitivity == Unstated then input.(sensitivity := NotSensitive) else input
  }

  function GroupedAction(input: RawInput, o: Options): Action {
    var finished := if input.endAt.None? then input.at else input.endAt.value;
    var kind :=
      if input.kind == RawTap && finished - input.at >= o.longPressMinimum then LongPress
      else match input.kind
           case RawTap => Tap
           case RawText => TextInput
           case RawTextDelete => TextDelete
           case RawOther(name) => Other(name);
    Action(input.device, kind, input.at, finished, input.text,
           if input.valueLength == 0 && input.text != [] then |input.text| else input.valueLength,
           input.sensitivity, input.target, input.place, input.keyCode, input.confirmed)
  }

  /** An input is taken when its device has a name and everything about it is in its bounds. */
  lemma AcceptedExactly(input: RawInput)
    ensures Acceptable(input) <==>
            && (exists k {:trigger input.device[k]} :: 0 <= k < |input.device| && !IsSpace(input.device[k] as int))
            && input.wellFormed && |input.text| <= 1_048_576
            && 0 <= input.valueLength && input.valueLength <= 1_048_576 && 0 <= input.keyCode && input.keyCode <= 10_000
            && (input.endAt == None || input.at <= input.endAt.value)
  {
    var i, j := TrimIsExact(input.device);
    hide Trim, IsSpace;
    if i < j {
      assert !IsSpace(input.device[i] as int);
    }
  }

  /** One input by itself: what it is called, when it finished, how long its text is; and everything else as it was stated. */
  lemma ActionOfInput(input: RawInput, o: Options)
    ensures var a := GroupedAction(input, o);
            && a.device == input.device && a.target == input.target && a.place == input.place && a.keyCode == input.keyCode
            && a.sensitivity == input.sensitivity && a.confirmed == input.confirmed && a.text == input.text
            && a.startedAt == input.at && (input.endAt.None? ==> a.finishedAt == input.at)
            && (input.endAt.Some? ==> a.finishedAt == input.endAt.value)
            && (a.kind == LongPress <==> input.kind == RawTap && a.finishedAt - a.startedAt >= o.longPressMinimum)
            && (a.kind == Tap <==> input.kind == RawTap && a.finishedAt - a.startedAt < o.longPressMinimum)
            && (a.kind == TextInput <==> input.kind == RawText) && (a.kind == TextDelete <==> input.kind == RawTextDelete)
            && (a.kind.Other? <==> input.kind.RawOther?) && (a.kind.Other? ==> a.kind.name == input.kind.name)
            && (a.valueLength != input.valueLength ==> input.valueLength == 0 && a.valueLength == |input.text|)
            && (input.text != [] ==> a.valueLength != 0)
    ensures Stated(input).sensitivity != Unstated && (input.sensitivity != Unstated ==> Stated(input) == input)
    ensures input.sensitivity == Unstated ==> Stated(input).sensitivity == NotSensitive
    ensures Stated(input).(sensitivity := input.sensitivity) == input
  {
  }

  predicate CanBuffer(a: Action) { a.kind == Tap || a.kind == TextInput || a.kind == TextDelete }

  predicate CanCombine(p: Action, c: Action, o: Options) {
    && p.device == c.device && p.target == c.target
    && c.startedAt >= p.startedAt
    && if p.kind == Tap && c.kind == Tap then c.startedAt - p.startedAt <= o.doubleTapWindow
       else if p.kind == c.kind && (p.kind == TextInput || p.kind == TextDelete) then c.startedAt - p.finishedAt <= o.textWindow
       else false
  }

  function CombineSensitivity(a: Sensitivity, b: Sensitivity): Sensitivity {
    if a == Uncertain || b == Uncertain then Uncertain
    else if a == Sensitive || b == Sensitive then Sensitive
    else NotSensitive
  }

  function Combine(p: Action, c: Action): Action {
    if p.kind == Tap && c.kind == Tap then p.(kind := DoubleTap, finishedAt := c.finishedAt)
    else
      p.(text := p.text + c.text, valueLength := p.valueLength + c.valueLength, finishedAt := c.finishedAt,
         sensitivity := CombineSensitivity(p.sensitivity, c.sensitivity), confirmed := p.confirmed || c.confirmed)
  }

  /** A stated window is kept, and one that is not is 300, 750 or 600 milliseconds. */
  lemma WindowsAreUsual(o: Options)
    ensures var n := Normalized(o);
            && n.doubleTapWindow == (if 0 < o.doubleTapWindow then o.doubleTapWindow else 300 * 1_000_000)
            && n.textWindow == (if 0 < o.textWindow then o.textWindow else 750 * 1_000_000)
            && n.longPressMinimum == (if 0 < o.longPressMinimum then o.longPressMinimum else 600 * 1_000_000)
  {
  }

  // ----- Batch grouping

  /** One action for a run of them, combined from the left. */
  function Joined(run: seq<Action>): Action
    requires run != []
  {
    if |run| == 1 then run[0] else Combine(Joined(run[..|run| - 1]), run[|run| - 1])
  }

  /** Each action of a run can be combined with all before it. */
  predicate IsRun(run: seq<Action>, o: Options) {
    run != [] && forall k :: 0 < k < |run| ==> CanCombine(Joined(run[..k]), run[k], o)
  }

  function Flatten(groups: seq<seq<Action>>): seq<Action> {
    if groups == [] then [] else Flatten(groups[..|groups| - 1]) + groups[|groups| - 1]
  }

  /** The greedy partition: every action is in one group, in order, and a group ends only where the next cannot join. */
  ghost predicate IsGreedy(groups: seq<seq<Action>>, actions: seq<Action>, o: Options) {
    && Flatten(groups) == actions
    && (forall i :: 0 <= i < |groups| ==> IsRun(groups[i], o))
    && (forall i :: 0 <= i < |groups| - 1 ==> !CanCombine(Joined(groups[i]), groups[i + 1][0], o))
  }

  function Summaries(groups: seq<seq<Action>>): seq<Action>
    requires forall i :: 0 <= i < |groups| ==> groups[i] != []
  {
    seq(|groups|, i requires 0 <= i < |groups| => Joined(groups[i]))
  }

  lemma JoinedThen(run: seq<Action>, a: Action)
    requires run != []
    ensures Joined(run + [a]) == Combine(Joined(run), a)
  {
    assert (run + [a])[..|run|] == run;
  }

  lemma RunThen(run: seq<Action>, a: Action, o: Options)
    requires IsRun(run, o) && CanCombine(Joined(run), a, o)
    ensures IsRun(run + [a], o)
  {
    hide Joined, CanCombine;
    forall k | 0 < k < |run| + 1 ensures CanCombine(Joined((run + [a])[..k]), (run + [a])[k], o) {
      assert (run + [a])[..k] == if k < |run| then run[..k] else run;
    }
  }

  lemma FlattenThen(groups: seq<seq<Action>>, group: seq<Action>)
    ensures Flatten(groups + [group]) == Flatten(groups) + group
  {
    assert (groups + [group])[..|groups|] == groups;
  }

  /** Where one more action goes: into the last group if it can join, into one of its own if not. */
  function Grown(groups: seq<seq<Action>>, a: Action, o: Options): seq<seq<Action>>
    requires forall i :: 0 <= i < |groups| ==> groups[i] != []
  {
    if groups == [] || !CanCombine(Joined(groups[|groups| - 1]), a, o) then groups + [[a]]
    else groups[..|groups| - 1] + [groups[|groups| - 1] + [a]]
  }

  lemma GrownIsGreedy(groups: seq<seq<Action>>, actions: seq<Action>, a: Action, o: Options)
    requires IsGreedy(groups, actions, o)
    ensures IsGreedy(Grown(groups, a, o), actions + [a], o)
  {
    if groups == [] || !CanCombine(Joined(groups[|groups| - 1]), a, o) {
      FlattenThen(groups, [a]);
      assert IsRun([a], o);
      hide Flatten, Joined, CanCombine, IsRun;
    } else {
      var front, last := groups[..|groups| - 1], groups[|groups| - 1];
      RunThen(last, a, o);
      FlattenThen(front, last);
      FlattenThen(front, last + [a]);
      assert groups == front + [last];
      assert last != [] && (last + [a])[0] == last[0];
      hide Flatten, Joined, CanCombine, IsRun;
      assert Flatten(front) + (last + [a]) == Flatten(front) + last + [a];
    }
  }

  lemma RunShorter(run: seq<Action>, o: Options)
    requires IsRun(run, o) && |run| > 1
    ensures IsRun(run[..|run| - 1], o) && CanCombine(Joined(run[..|run| - 1]), run[|run| - 1], o)
  {
    hide Joined, CanCombine;
    var short := run[..|run| - 1];
    forall k | 0 < k < |short| ensures CanCombine(Joined(short[..k]), short[k], o) {
      assert short[..k] == run[..k];
    }
  }

  /** A greedy partition with its last action taken out. */
  function WithoutLast(groups: seq<seq<Action>>): seq<seq<Action>>
    requires groups != [] && groups[|groups| - 1] != []
  {
    var front, last := groups[..|groups| - 1], groups[|groups| - 1];
    if |last| == 1 then front else front + [last[..|last| - 1]]
  }

  lemma NonEmptyRuns(groups: seq<seq<Action>>, o: Options)
    requires forall i :: 0 <= i < |groups| ==> IsRun(groups[i], o)
    ensures forall i :: 0 <= i < |groups| ==> groups[i] != []
  {
  }

  lemma LastAlone(front: seq<seq<Action>>, last: Action, actions: seq<Action>, o: Options)
    requires IsGreedy(front + [[last]], actions, o)
    ensures actions != [] && actions[|actions| - 1] == last && IsGreedy(front, actions[..|actions| - 1], o)
    ensures front + [[last]] == Grown(front, last, o)
  {
    var groups := front + [[last]];
    assert IsRun(groups[|front|], o) && forall i :: 0 <= i < |front| ==> groups[i] == front[i] && IsRun(groups[i], o);
    hide IsRun, Joined, CanCombine, Flatten;
    FlattenThen(front, [last]);
    assert Flatten(front) == actions[..|actions| - 1];
    assert forall i :: 0 <= i < |front| ==> front[i] == groups[i];
    NonEmptyRuns(front, o);
    assert front != [] ==> !CanCombine(Joined(groups[|front| - 1]), groups[|front|][0], o);
  }

  lemma LastWithOthers(front: seq<seq<Action>>, run: seq<Action>, last: Action, actions: seq<Action>, o: Options)
    requires run != [] && IsGreedy(front + [run + [last]], actions, o)
    ensures actions != [] && actions[|actions| - 1] == last && IsGreedy(front + [run], actions[..|actions| - 1], o)
    ensures front + [run + [last]] == Grown(front + [run], last, o)
  {
    hide IsRun, Joined, CanCombine, Flatten;
    var groups, before := front + [run + [last]], front + [run];
    FlattenThen(front, run + [last]);
    FlattenThen(front, run);
    assert Flatten(front) + run == actions[..|actions| - 1];
    assert groups[|front|] == run + [last];
    RunShorter(run + [last], o);
    assert (run + [last])[..|run|] == run;
    assert forall i :: 0 <= i < |front| ==> front[i] == groups[i] == before[i];
    assert before[|front|][0] == groups[|front|][0];
  }

  /** Every greedy partition is the one without its last action, grown by it. */
  lemma GreedyGrows(groups: seq<seq<Action>>, actions: seq<Action>, o: Options)
    requires IsGreedy(groups, actions, o) && groups != [] && groups[|groups| - 1] != []
    ensures actions != []
    ensures var a, before := actions[|actions| - 1], WithoutLast(groups);
            IsGreedy(before, actions[..|actions| - 1], o) && groups == Grown(before, a, o)
  {
    hide IsGreedy, Grown, IsRun;
    var front, last := groups[..|groups| - 1], groups[|groups| - 1];
    assert groups == front + [last];
    if |last| == 1 {
      assert last == [last[0]];
      LastAlone(front, last[0], actions, o);
    } else {
      assert last == last[..|last| - 1] + [last[|last| - 1]];
      LastWithOthers(front, last[..|last| - 1], last[|last| - 1], actions, o);
    }
  }

  lemma GroupsHoldSomething(groups: seq<seq<Action>>, actions: seq<Action>, o: Options)
    requires IsGreedy(groups, actions, o)
    ensures groups != [] <==> actions != []
    ensures groups != [] ==> groups[|groups| - 1] != []
  {
    if groups != [] {
      assert IsRun(groups[|groups| - 1], o);
    }
  }

  /** There is one greedy partition: the rule decides every boundary. */
  lemma {:induction false} GreedyIsUnique(g: seq<seq<Action>>, h: seq<seq<Action>>, actions: seq<Action>, o: Options)
    requires IsGreedy(g, actions, o) && IsGreedy(h, actions, o)
    ensures g == h
    decreases |actions|
  {
    GroupsHoldSomething(g, actions, o);
    GroupsHoldSomething(h, actions, o);
    if actions != [] {
      hide IsGreedy, Grown;
      GreedyGrows(g, actions, o);
      GreedyGrows(h, actions, o);
      GreedyIsUnique(WithoutLast(g), WithoutLast(h), actions[..|actions| - 1], o);
    }
  }

  // ----- What one action of a run says

  function Texts(run: seq<Action>): seq<byte> { if run == [] then [] else Texts(run[..|run| - 1]) + run[|run| - 1].text }

  function Lengths(run: seq<Action>): int { if run == [] then 0 else Lengths(run[..|run| - 1]) + run[|run| - 1].valueLength }

  function Severity(s: Sensitivity): nat { if s == Uncertain then 2 else if s == Sensitive then 1 else 0 }

  predicate IsText(kind: Kind) { kind == TextInput || kind == TextDelete }

  /** A run of text says the whole text and its whole length, from its first start to its last finish. */
  lemma {:induction false} TextRun(run: seq<Action>, o: Options)
    requires IsRun(run, o) && IsText(run[0].kind)
    ensures var a := Joined(run);
            && a.kind == run[0].kind && a.device == run[0].device && a.target == run[0].target
            && a.place == run[0].place && a.keyCode == run[0].keyCode
            && a.startedAt == run[0].startedAt && a.finishedAt == run[|run| - 1].finishedAt
            && a.text == Texts(run) && a.valueLength == Lengths(run)
    decreases |run|
  {
    if |run| == 1 {
      assert run[..0] == [];
    } else {
      RunShorter(run, o);
      TextRun(run[..|run| - 1], o);
      hide IsRun;
    }
  }

  predicate SamePlace(a: Action, b: Action) { a.device == b.device && a.target == b.target }

  /**
   What may join a run, said of its inputs: on its device and target, no earlier than it started, and either text of its
   kind soon enough after the last finish, or a second tap soon enough after a first that is alone.
   */
  ghost predicate MayJoin(run: seq<Action>, a: Action, o: Options)
    requires run != []
  {
    && SamePlace(run[0], a) && run[0].startedAt <= a.startedAt
    && if run[0].kind == Tap then |run| == 1 && a.kind == Tap && a.startedAt - run[0].startedAt <= o.doubleTapWindow
       else IsText(run[0].kind) && a.kind == run[0].kind && a.startedAt - run[|run| - 1].finishedAt <= o.textWindow
  }

  lemma JoinsExactly(run: seq<Action>, a: Action, o: Options)
    requires IsRun(run, o)
    ensures CanCombine(Joined(run), a, o) <==> MayJoin(run, a, o)
  {
    if IsText(run[0].kind) {
      TextRun(run, o);
      hide Joined, IsRun;
    } else {
      OtherRuns(run, o);
      if |run| == 2 {
        assert Joined(run).kind == DoubleTap;
        hide Joined, IsRun;
      }
    }
  }

  /** So the groups are decided by the inputs alone: each joins the ones before it, and a group ends where the next may not. */
  lemma GreedyMeans(groups: seq<seq<Action>>, actions: seq<Action>, o: Options)
    ensures IsGreedy(groups, actions, o) <==>
            && Flatten(groups) == actions && (forall i :: 0 <= i < |groups| ==> groups[i] != [])
            && (forall i, k :: 0 <= i < |groups| && 0 < k < |groups[i]| ==> MayJoin(groups[i][..k], groups[i][k], o))
            && (forall i :: 0 <= i < |groups| - 1 ==> !MayJoin(groups[i], groups[i + 1][0], o))
  {
    hide IsRun, MayJoin, CanCombine, Joined, Flatten;
    forall i | 0 <= i < |groups|
      ensures IsRun(groups[i], o) <==>
              groups[i] != [] && forall k :: 0 < k < |groups[i]| ==> MayJoin(groups[i][..k], groups[i][k], o)
    {
      RunExactly(groups[i], o);
    }
    forall i | 0 <= i < |groups| && IsRun(groups[i], o)
      ensures groups[i] != []
      ensures i < |groups| - 1 && groups[i + 1] != [] ==>
                (CanCombine(Joined(groups[i]), groups[i + 1][0], o) <==> MayJoin(groups[i], groups[i + 1][0], o))
    {
      RunIsSome(groups[i], o);
      if i < |groups| - 1 && groups[i + 1] != [] {
        JoinsExactly(groups[i], groups[i + 1][0], o);
      }
    }
  }

  lemma RunIsSome(run: seq<Action>, o: Options)
    requires IsRun(run, o)
    ensures run != []
  {
  }

  lemma {:induction false} RunExactly(run: seq<Action>, o: Options)
    ensures IsRun(run, o) <==> run != [] && forall k :: 0 < k < |run| ==> MayJoin(run[..k], run[k], o)
    decreases |run|
  {
    hide MayJoin, CanCombine, Joined;
    if |run| > 1 {
      var short, last := run[..|run| - 1], run[|run| - 1];
      RunExactly(short, o);
      assert run == short + [last];
      assert forall k :: 0 < k < |short| ==> short[..k] == run[..k] && short[k] == run[k];
      if IsRun(short, o) {
        JoinsExactly(short, last, o);
        if MayJoin(short, last, o) {
          RunThen(short, last, o);
        }
      }
      if IsRun(run, o) {
        RunShorter(run, o);
      }
    }
  }

  function MostSevere(run: seq<Action>): nat {
    if run == [] then 0
    else
      var before, last := MostSevere(run[..|run| - 1]), Severity(run[|run| - 1].sensitivity);
      if before > last then before else last
  }

  predicate AnyConfirmed(run: seq<Action>) { exists k :: 0 <= k < |run| && run[k].confirmed }

  lemma CombinedText(p: Action, c: Action)
    requires IsText(p.kind)
    ensures var worse := if Severity(p.sensitivity) > Severity(c.sensitivity) then p else c;
            Severity(Combine(p, c).sensitivity) == Severity(worse.sensitivity)
    ensures Combine(p, c).confirmed == (p.confirmed || c.confirmed)
  {
  }

  lemma AnyConfirmedThen(run: seq<Action>, a: Action)
    ensures AnyConfirmed(run + [a]) <==> AnyConfirmed(run) || a.confirmed
  {
    if k :| 0 <= k < |run| && run[k].confirmed {
      assert (run + [a])[k].confirmed;
    }
    assert (run + [a])[|run|] == a;
  }

  /** It is as sensitive as the most sensitive of its inputs, and confirmed when any of them was. */
  lemma {:induction false} TextRunSensitivity(run: seq<Action>, o: Options)
    requires IsRun(run, o) && IsText(run[0].kind)
    ensures Severity(Joined(run).sensitivity) == MostSevere(run)
    ensures Joined(run).confirmed <==> AnyConfirmed(run)
    decreases |run|
  {
    if |run| == 1 {
      assert run[..0] == [];
    } else {
      var short, c := run[..|run| - 1], run[|run| - 1];
      RunShorter(run, o);
      assert short[0] == run[0];
      hide IsRun, Combine, Severity, AnyConfirmed, CanCombine;
      TextRun(short, o);
      TextRunSensitivity(short, o);
      CombinedText(Joined(short), c);
      AnyConfirmedThen(short, c);
      assert run == short + [c];
    }
  }

  lemma NothingJoinsDoubleTap(first: Action, second: Action, third: Action, o: Options)
    requires CanCombine(first, second, o) && !IsText(first.kind)
    ensures first.kind == second.kind == Tap && second.startedAt - first.startedAt <= o.doubleTapWindow
    ensures Joined([first, second]) == first.(kind := DoubleTap, finishedAt := second.finishedAt)
    ensures !CanCombine(Joined([first, second]), third, o)
  {
    assert [first, second][..1] == [first];
  }

  /**
   Nothing else is ever combined but two taps. A double tap holds exactly two, and keeps the first's sensitivity and
   confirmation whatever the second's are.
   */
  lemma OtherRuns(run: seq<Action>, o: Options)
    requires IsRun(run, o) && !IsText(run[0].kind)
    ensures |run| <= 2
    ensures |run| == 2 ==>
              && run[0].kind == run[1].kind == Tap && run[1].startedAt - run[0].startedAt <= o.doubleTapWindow
              && Joined(run) == run[0].(kind := DoubleTap, finishedAt := run[1].finishedAt)
  {
    if |run| > 1 {
      assert run[..1] == [run[0]];
      assert CanCombine(Joined(run[..1]), run[1], o);
      assert run[..2] == [run[0], run[1]];
      NothingJoinsDoubleTap(run[0], run[1], run[|run| - 1], o);
      assert |run| > 2 ==> CanCombine(Joined(run[..2]), run[2], o);
      hide CanCombine, Joined;
      NothingJoinsDoubleTap(run[0], run[1], if |run| > 2 then run[2] else run[1], o);
    }
  }

  lemma PairSeverity(run: seq<Action>)
    requires |run| <= 2 && run != []
    ensures var first, last := Severity(run[0].sensitivity), Severity(run[|run| - 1].sensitivity);
            MostSevere(run) == if first > last then first else last
    ensures AnyConfirmed(run) <==> run[0].confirmed || run[|run| - 1].confirmed
  {
    hide Severity;
    assert MostSevere([run[0]]) == Severity(run[0].sensitivity) by {
      assert [run[0]][..0] == [];
    }
    assert run == if |run| == 1 then [run[0]] else [run[0]] + [run[1]];
    if |run| == 2 {
      assert run[..1] == [run[0]];
    }
  }

  /**
   An action is as sensitive as its most sensitive input exactly when it is text, a single input, or a double tap whose
   first tap is at least as sensitive as its second; and it is confirmed as its inputs are under the same condition.
   */
  lemma GroupSeverity(run: seq<Action>, o: Options)
    requires IsRun(run, o)
    ensures Severity(Joined(run).sensitivity) == MostSevere(run) <==>
            IsText(run[0].kind) || |run| == 1 || Severity(run[0].sensitivity) >= Severity(run[1].sensitivity)
    ensures (Joined(run).confirmed <==> AnyConfirmed(run)) <==>
            IsText(run[0].kind) || |run| == 1 || run[0].confirmed || !run[1].confirmed
  {
    if IsText(run[0].kind) {
      TextRunSensitivity(run, o);
    } else {
      OtherRuns(run, o);
      PairSeverity(run);
    }
    hide IsRun, MostSevere, AnyConfirmed, Severity, IsText;
  }

  /** Two taps on one target whose sensitivity the second states and the group does not. */
  lemma SecondTapIsForgotten(o: Options, tap: Action)
    requires tap.kind == Tap && o.doubleTapWindow >= 0
    ensures var run := [tap.(sensitivity := NotSensitive), tap.(sensitivity := Uncertain)];
            IsRun(run, o) && Severity(Joined(run).sensitivity) == 0 && MostSevere(run) == 2
  {
    var run := [tap.(sensitivity := NotSensitive), tap.(sensitivity := Uncertain)];
    assert run[..1] == [run[0]];
    assert IsRun(run, o);
    OtherRuns(run, o);
    PairSeverity(run);
    hide Joined, MostSevere;
  }

  // ----- The stream

  /** What is held back and what is given out, after one more action. */
  function Next(pending: Option<Action>, current: Action, o: Options): (Option<Action>, seq<Action>) {
    if pending.None? then if CanBuffer(current) then (Some(current), []) else (None, [current])
    else if CanCombine(pending.value, current, o) then (Some(Combine(pending.value, current)), [])
    else if CanBuffer(current) then (Some(current), [pending.value])
    else (None, [pending.value, current])
  }

  /** Taps, pairs of them, and text are held back; nothing else is. */
  predicate IsHeld(kind: Kind) { kind == Tap || kind == DoubleTap || kind == TextInput || kind == TextDelete }

  /**
   Everything given out and what is held back are the summaries of the groups, and the last of them is held back exactly
   while it is a tap, a double tap or text.
   */
  ghost predicate Accounts(groups: seq<seq<Action>>, pending: Option<Action>, given: seq<Action>) {
    && (forall i :: 0 <= i < |groups| ==> groups[i] != [])
    && given + (if pending.None? then [] else [pending.value]) == Summaries(groups)
    && (pending.Some? <==> groups != [] && IsHeld(Joined(groups[|groups| - 1]).kind))
  }

  lemma NextAccounts(groups: seq<seq<Action>>, pending: Option<Action>, given: seq<Action>, current: Action, o: Options)
    requires Accounts(groups, pending, given) && current.kind != DoubleTap
    ensures var next := Next(pending, current, o);
            (forall i :: 0 <= i < |groups| ==> groups[i] != []) && Accounts(Grown(groups, current, o), next.0, given + next.1)
  {
    SummariesGrow(groups, current, o);
    var was := Summaries(groups);
    if pending.Some? {
      assert was[|groups| - 1] == pending.value && was[..|groups| - 1] == given;
    }
    assert Joined([current]) == current;
    hide Joined, Combine;
  }

  /** What growing a partition does to its summaries. */
  lemma SummariesGrow(groups: seq<seq<Action>>, a: Action, o: Options)
    requires forall i :: 0 <= i < |groups| ==> groups[i] != []
    ensures var was, now := Summaries(groups), Summaries(Grown(groups, a, o));
            if groups == [] || !CanCombine(was[|groups| - 1], a, o) then now == was + [a]
            else now == was[..|was| - 1] + [Combine(was[|was| - 1], a)]
  {
    if groups != [] {
      JoinedThen(groups[|groups| - 1], a);
    }
    hide Joined, CanCombine, Combine;
  }

  method Validate(input: RawInput) returns (valid: bool)
    ensures valid == Acceptable(input)
  {
    if Trim(input.device) == "" || !input.wellFormed || |input.text| > 0x10_0000 || input.valueLength < 0
       || input.valueLength > 0x10_0000 || input.keyCode < 0 || input.keyCode > 10000 {
      return false;
    }
    if input.endAt.Some? && input.endAt.value < input.at {
      return false;
    }
    return true;
  }

  class EventGrouper {
    const options: Options
    var pending: Option<Action>
    var device: string
    // Since the last flush: the actions taken in, their greedy partition, and what was given out.
    ghost var taken: seq<Action>
    ghost var groups: seq<seq<Action>>
    ghost var given: seq<Action>

    ghost predicate Valid()
      reads this
    {
      && IsGreedy(groups, taken, options)
      && Accounts(groups, pending, given)
    }

    constructor (options: Options)
      ensures Valid() && taken == given == [] && device == "" && this.options == Normalized(options)
    {
      this.options := Normalized(options);
      pending, device := None, "";
      taken, groups, given := [], [], [];
    }

    /** Takes one input in and gives out what can no longer be joined; a refused input changes nothing. */
    method Add(input: RawInput) returns (ready: Option<seq<Action>>)
      requires Valid()
      modifies this
      ensures Valid()
      ensures ready.None? <==> !Acceptable(Stated(input)) || (old(device) != "" && old(device) != input.device)
      ensures ready.None? ==> taken == old(taken) && given == old(given) && pending == old(pending) && device == old(device)
      ensures ready.Some? ==>
                && device == input.device
                && taken == old(taken) + [GroupedAction(Stated(input), options)]
                && given == old(given) + ready.value
    {
      var stated := Stated(input);
      var valid := Validate(stated);
      if !valid {
        return None;
      }
      if device != "" && device != stated.device {
        return None;
      }
      device := stated.device;
      var current := GroupedAction(stated, options);
      var out := Take(current);
      return Some(out);
    }

    /** Gives out what is held back. The list it ends is over; what follows is a list of its own. */
    method Flush() returns (out: seq<Action>, ghost whole: seq<seq<Action>>)
      requires Valid()
      modifies this
      ensures Valid() && taken == [] && pending == None && device == old(device)
      ensures IsGreedy(whole, old(taken), options) && (forall i :: 0 <= i < |whole| ==> whole[i] != [])
      ensures old(given) + out == Summaries(whole)
    {
      out := if pending.None? then [] else [pending.value];
      whole := groups;
      pending := None;
      taken, groups, given := [], [], [];
    }

    method Take(current: Action) returns (ready: seq<Action>)
      requires Valid() && current.kind != DoubleTap
      modifies this`pending, this`taken, this`groups, this`given
      ensures Valid() && taken == old(taken) + [current] && given == old(given) + ready
    {
      hide IsGreedy, Accounts, Grown, CanBuffer, CanCombine, Combine, Summaries, Flatten, Joined, IsRun;
      GrownIsGreedy(groups, taken, current, options);
      NextAccounts(groups, pending, given, current, options);
      taken := taken + [current];
      groups := Grown(groups, current, options);
      given := given + Next(pending, current, options).1;
      if pending == None {
        if CanBuffer(current) {
          pending := Some(current);
          return [];
        }
        return [current];
      }
      if CanCombine(pending.value, current, options) {
        pending := Some(Combine(pending.value, current));
        return [];
      }
      ready := [pending.value];
      pending := None;
      if CanBuffer(current) {
        pending := Some(current);
        return;
      }
      ready := ready + [current];
    }
  }

  /** Every input given in, then a flush: the summaries of the greedy partition, the only one there is. */
  method GroupAll(inputs: seq<RawInput>, device: string, options: Options)
    returns (out: seq<Action>, ghost groups: seq<seq<Action>>)
    requires forall k :: 0 <= k < |inputs| ==> Acceptable(Stated(inputs[k])) && inputs[k].device == device
    ensures var o := Normalized(options);
            IsGreedy(groups, seq(|inputs|, k requires 0 <= k < |inputs| => GroupedAction(Stated(inputs[k]), o)), o)
    ensures (forall i :: 0 <= i < |groups| ==> groups[i] != []) && out == Summaries(groups)
  {
    hide IsGreedy, Summaries, Acceptable, GroupedAction, EventGrouper.Valid, Stated, Normalized, Accounts;
    ghost var o := Normalized(options);
    ghost var actions := seq(|inputs|, k requires 0 <= k < |inputs| => GroupedAction(Stated(inputs[k]), o));
    var grouper := new EventGrouper(options);
    out := [];
    for k := 0 to |inputs|
      invariant grouper.Valid() && fresh(grouper) && grouper.options == o
      invariant grouper.taken == actions[..k] && grouper.given == out
      invariant grouper.device == "" || grouper.device == device
    {
      var ready := grouper.Add(inputs[k]);
      out := out + ready.value;
      assert actions[..k + 1] == actions[..k] + [actions[k]];
    }
    assert actions[..|inputs|] == actions;
    var last;
    last, groups := grouper.Flush();
    out := out + last;
  }
}

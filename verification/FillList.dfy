/** The list of partial fills that the swap page shows, and the events that change it. */
module FillList {
  import opened PartialFillSecrets

  datatype FillStatus = Pending | Completed

  datatype Fill = Fill(
    resolver: string,
    fillPercentage: real,
    cumulativePercentage: real,
    secretIndex: int,
    status: FillStatus)

  /** A created event without a cumulative percentage carries zero there. */
  datatype FillEvent =
    | FillCreated(resolver: string, fillPercentage: real, cumulativePercentage: real, secretIndex: int)
    | FillCompleted(secretIndex: int)

  predicate SameKey(fill: Fill, resolver: string, secretIndex: int) {
    fill.secretIndex == secretIndex && fill.resolver == resolver
  }

  predicate Exists(fills: seq<Fill>, resolver: string, secretIndex: int) {
    exists i :: 0 <= i < |fills| && SameKey(fills[i], resolver, secretIndex)
  }

  function NewFill(e: FillEvent): Fill
    requires e.FillCreated?
  {
    var cumulative := if e.cumulativePercentage != 0.0 then e.cumulativePercentage else e.fillPercentage;
    Fill(e.resolver, e.fillPercentage, cumulative, e.secretIndex, Pending)
  }

  function Complete(fill: Fill, secretIndex: int): Fill {
    if fill.secretIndex == secretIndex then fill.(status := Completed) else fill
  }

  /** The list after one event: a repeated key is ignored, a completion marks every entry with its index. */
  function Update(fills: seq<Fill>, e: FillEvent): seq<Fill> {
    match e
    case FillCreated(resolver, _, _, secretIndex) =>
      if Exists(fills, resolver, secretIndex) then fills else fills + [NewFill(e)]
    case FillCompleted(secretIndex) =>
      seq(|fills|, i requires 0 <= i < |fills| => Complete(fills[i], secretIndex))
  }

  function UpdateAll(fills: seq<Fill>, events: seq<FillEvent>): seq<Fill> {
    if events == [] then fills else Update(UpdateAll(fills, events[..|events| - 1]), events[|events| - 1])
  }

  /** The progress bar: the largest cumulative percentage, at least zero. */
  function Progress(fills: seq<Fill>): real {
    if fills == [] then 0.0
    else
      var rest, last := Progress(fills[..|fills| - 1]), fills[|fills| - 1].cumulativePercentage;
      if last > rest then last else rest
  }

  ghost predicate DistinctKeys(fills: seq<Fill>) {
    forall i, j :: 0 <= i < j < |fills| ==> !SameKey(fills[j], fills[i].resolver, fills[i].secretIndex)
  }

  /** `after` extends `before`: entries keep their place and data, and a completed entry stays completed. */
  ghost predicate Extends(before: seq<Fill>, after: seq<Fill>) {
    && |before| <= |after|
    && forall i :: 0 <= i < |before| ==>
         after[i] == before[i] || (before[i].status == Pending && after[i] == before[i].(status := Completed))
  }

  lemma {:induction false} UpdateExtends(fills: seq<Fill>, e: FillEvent)
    ensures Extends(fills, Update(fills, e))
    ensures DistinctKeys(fills) ==> DistinctKeys(Update(fills, e))
  {
    if e.FillCreated? && !Exists(fills, e.resolver, e.secretIndex) && DistinctKeys(fills) {
      var after := fills + [NewFill(e)];
      forall i, j | 0 <= i < j < |after|
        ensures !SameKey(after[j], after[i].resolver, after[i].secretIndex)
      {
        assert j == |fills| ==> !SameKey(fills[i], e.resolver, e.secretIndex);
      }
    }
  }

  lemma {:induction false} ExtendsTransitive(a: seq<Fill>, b: seq<Fill>, c: seq<Fill>)
    requires Extends(a, b) && Extends(b, c)
    ensures Extends(a, c)
  {
  }

  /** Over every sequence of events no key repeats, entries are only added and completed, never undone. */
  lemma {:induction false} FillsOnlyGrow(fills: seq<Fill>, events: seq<FillEvent>)
    requires DistinctKeys(fills)
    ensures Extends(fills, UpdateAll(fills, events)) && DistinctKeys(UpdateAll(fills, events))
    decreases |events|
  {
    hide Extends, DistinctKeys, Update;
    if events == [] {
      ExtendsSelf(fills);
    } else {
      var middle := UpdateAll(fills, events[..|events| - 1]);
      FillsOnlyGrow(fills, events[..|events| - 1]);
      UpdateExtends(middle, events[|events| - 1]);
      ExtendsTransitive(fills, middle, Update(middle, events[|events| - 1]));
    }
  }

  lemma {:induction false} ExtendsSelf(fills: seq<Fill>)
    ensures Extends(fills, fills)
  {
  }

  /** A created event delivered again, whatever came in between, changes nothing. */
  lemma {:induction false} RedeliveryIgnored(fills: seq<Fill>, e: FillEvent, between: seq<FillEvent>, again: FillEvent)
    requires DistinctKeys(fills) && e.FillCreated? && again.FillCreated?
    requires again.resolver == e.resolver && again.secretIndex == e.secretIndex
    ensures var later := UpdateAll(Update(fills, e), between);
      Update(later, again) == later
  {
    var first := Update(fills, e);
    UpdateExtends(fills, e);
    FillsOnlyGrow(first, between);
    var later := UpdateAll(first, between);
    if Exists(fills, e.resolver, e.secretIndex) {
      var i :| 0 <= i < |fills| && SameKey(fills[i], e.resolver, e.secretIndex);
      assert SameKey(later[i], e.resolver, e.secretIndex);
    } else {
      assert first[|fills|] == NewFill(e);
      assert SameKey(later[|fills|], e.resolver, e.secretIndex);
    }
  }

  lemma {:induction false} ProgressOf(fills: seq<Fill>)
    ensures Progress(fills) >= 0.0
    ensures forall i :: 0 <= i < |fills| ==> fills[i].cumulativePercentage <= Progress(fills)
    ensures Progress(fills) == 0.0 || exists i :: 0 <= i < |fills| && fills[i].cumulativePercentage == Progress(fills)
    decreases |fills|
  {
    if fills != [] {
      var front := fills[..|fills| - 1];
      ProgressOf(front);
      forall i | 0 <= i < |fills|
        ensures fills[i].cumulativePercentage <= Progress(fills)
      {
        assert i < |front| ==> fills[i] == front[i];
      }
      if Progress(fills) == Progress(front) && Progress(front) != 0.0 {
        var i :| 0 <= i < |front| && front[i].cumulativePercentage == Progress(front);
        assert fills[i] == front[i];
      } else if Progress(fills) != 0.0 {
        assert fills[|fills| - 1].cumulativePercentage == Progress(fills);
      }
    }
  }

  /** The displayed progress never falls. */
  lemma {:induction false} ProgressNeverFalls(fills: seq<Fill>, events: seq<FillEvent>)
    requires DistinctKeys(fills)
    ensures Progress(fills) <= Progress(UpdateAll(fills, events))
  {
    var after := UpdateAll(fills, events);
    FillsOnlyGrow(fills, events);
    ProgressOf(fills);
    ProgressOf(after);
    hide Progress, UpdateAll;
    if Progress(fills) != 0.0 {
      var i :| 0 <= i < |fills| && fills[i].cumulativePercentage == Progress(fills);
      assert after[i].cumulativePercentage == fills[i].cumulativePercentage;
    }
  }

  // ---------- Which entries one completion marks ----------

  /** The resolver numbers its fill by the thresholds its cumulative total has passed. */
  ghost predicate NumberedByThresholds(fills: seq<Fill>, thresholds: seq<real>) {
    forall i :: 0 <= i < |fills| ==>
      fills[i].secretIndex == PassedCount(fills[i].cumulativePercentage, thresholds)
  }

  function Totals(fills: seq<Fill>): (cs: seq<real>)
    ensures |cs| == |fills|
    ensures forall i :: 0 <= i < |fills| ==> cs[i] == fills[i].cumulativePercentage
  {
    seq(|fills|, i requires 0 <= i < |fills| => fills[i].cumulativePercentage)
  }

  /** Every completion event marks at most one entry. */
  ghost predicate CompletionsUnambiguous(fills: seq<Fill>) {
    forall i, j :: 0 <= i < j < |fills| ==> fills[i].secretIndex != fills[j].secretIndex
  }

  /** Completions are unambiguous exactly when a threshold separates each fill's total from the next. */
  lemma {:induction false} UnambiguousIffSeparated(fills: seq<Fill>, thresholds: seq<real>)
    requires NumberedByThresholds(fills, thresholds) && Increasing(thresholds) && Increasing(Totals(fills))
    ensures CompletionsUnambiguous(fills) <==> Separated(Totals(fills), thresholds)
  {
    hide PassedCount, Separated, Increasing;
    FreshSecretsIff(Totals(fills), thresholds);
    assert CompletionsUnambiguous(fills) <==> FreshSecrets(Totals(fills), thresholds) by {
      var cs := Totals(fills);
      assert forall i :: 0 <= i < |fills| ==> fills[i].secretIndex == PassedCount(cs[i], thresholds);
    }
  }

  /** Then a completion for a recorded pending fill turns exactly that entry completed. */
  lemma {:induction false} CompletionMarksOne(fills: seq<Fill>, k: nat)
    requires CompletionsUnambiguous(fills) && k < |fills|
    ensures Update(fills, FillCompleted(fills[k].secretIndex)) == fills[k := fills[k].(status := Completed)]
  {
    var after := Update(fills, FillCompleted(fills[k].secretIndex));
    forall i | 0 <= i < |fills|
      ensures after[i] == fills[k := fills[k].(status := Completed)][i]
    {
    }
  }

  /** Two resolvers within one quarter share an index, so one completion marks both. */
  lemma {:induction false} SharedIndexCompletesBoth()
    ensures var a, b := FillCreated("A", 10.0, 10.0, 0), FillCreated("B", 10.0, 20.0, 0);
      var fills := UpdateAll([], [a, b, FillCompleted(0)]);
      && PassedCount(10.0, Thresholds(4)) == 0 == PassedCount(20.0, Thresholds(4))
      && |fills| == 2 && fills[0].status == Completed && fills[1].status == Completed
  {
    var a, b := FillCreated("A", 10.0, 10.0, 0), FillCreated("B", 10.0, 20.0, 0);
    ThresholdsIncrease(4);
    assert Thresholds(4)[0] == 25.0;
    PassedCountIs(10.0, Thresholds(4), 0);
    PassedCountIs(20.0, Thresholds(4), 0);
    var all := [a, b, FillCompleted(0)];
    assert all[..2] == [a, b] && [a, b][..1] == [a] && [a][..0] == [];
    assert UpdateAll([], [a]) == [NewFill(a)];
    assert "A" != "B" by { assert "A"[0] != "B"[0]; }
    assert UpdateAll([], [a, b]) == [NewFill(a), NewFill(b)];
  }
}

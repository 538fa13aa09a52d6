/** The list of fills as a function of the events delivered: what is in it, in which order, and what is completed. */
module FillHistory {
  import opened FillList

  predicate Creates(e: FillEvent, resolver: string, secretIndex: int) {
    e.FillCreated? && e.resolver == resolver && e.secretIndex == secretIndex
  }

  ghost predicate CreatedIn(events: seq<FillEvent>, resolver: string, secretIndex: int) {
    exists k :: 0 <= k < |events| && Creates(events[k], resolver, secretIndex)
  }

  /** Event k is the first one to create a fill with its key. */
  ghost predicate FirstCreation(events: seq<FillEvent>, k: int) {
    && 0 <= k < |events| && events[k].FillCreated?
    && forall j :: 0 <= j < k ==> !Creates(events[j], events[k].resolver, events[k].secretIndex)
  }

  ghost predicate CompletedAfter(events: seq<FillEvent>, k: int, secretIndex: int) {
    exists m :: k < m < |events| && 0 <= m && events[m] == FillCompleted(secretIndex)
  }

  /** How far a creation says the order is filled: its cumulative percentage or, where that is zero, its own share. */
  function Reached(e: FillEvent): real
    requires e.FillCreated?
  {
    if e.cumulativePercentage == 0.0 then e.fillPercentage else e.cumulativePercentage
  }

  /** The entry that the creation at k has become. */
  ghost predicate EntryOf(events: seq<FillEvent>, k: int, fill: Fill) {
    && FirstCreation(events, k)
    && fill.resolver == events[k].resolver && fill.secretIndex == events[k].secretIndex
    && fill.fillPercentage == events[k].fillPercentage && fill.cumulativePercentage == Reached(events[k])
    && (fill.status == Completed <==> CompletedAfter(events, k, events[k].secretIndex))
  }

  /** For every entry, the event that created it: increasing, and covering every first creation. */
  ghost predicate Explains(events: seq<FillEvent>, fills: seq<Fill>, origin: seq<int>) {
    && |origin| == |fills|
    && (forall i :: 0 <= i < |fills| ==> EntryOf(events, origin[i], fills[i]))
    && (forall i, j :: 0 <= i < j < |fills| ==> origin[i] < origin[j])
    && (forall k :: FirstCreation(events, k) ==> k in origin)
  }

  lemma {:induction false} FirstCreationSnoc(events: seq<FillEvent>, last: FillEvent, k: int)
    ensures k < |events| ==> (FirstCreation(events + [last], k) <==> FirstCreation(events, k))
    ensures FirstCreation(events + [last], |events|) <==>
            last.FillCreated? && !CreatedIn(events, last.resolver, last.secretIndex)
  {
    var all := events + [last];
    assert forall j :: 0 <= j < |events| ==> all[j] == events[j];
    assert all[|events|] == last;
    if last.FillCreated? && CreatedIn(events, last.resolver, last.secretIndex) {
      var j :| 0 <= j < |events| && Creates(events[j], last.resolver, last.secretIndex);
      assert Creates(all[j], last.resolver, last.secretIndex);
    }
  }

  lemma {:induction false} CompletedAfterSnoc(events: seq<FillEvent>, last: FillEvent, k: int, secretIndex: int)
    requires 0 <= k < |events|
    ensures CompletedAfter(events + [last], k, secretIndex) <==>
            CompletedAfter(events, k, secretIndex) || last == FillCompleted(secretIndex)
  {
    var all := events + [last];
    assert all[|events|] == last;
    if CompletedAfter(events, k, secretIndex) {
      var m :| k < m < |events| && 0 <= m && events[m] == FillCompleted(secretIndex);
      assert all[m] == events[m];
    }
    if CompletedAfter(all, k, secretIndex) {
      var m :| k < m < |all| && 0 <= m && all[m] == FillCompleted(secretIndex);
      assert m < |events| ==> events[m] == all[m];
    }
  }

  lemma {:induction false} EntrySnoc(events: seq<FillEvent>, last: FillEvent, k: int, fill: Fill)
    requires EntryOf(events, k, fill)
    ensures EntryOf(events + [last], k, if last.FillCompleted? then Complete(fill, last.secretIndex) else fill)
  {
    FirstCreationSnoc(events, last, k);
    CompletedAfterSnoc(events, last, k, events[k].secretIndex);
    assert (events + [last])[k] == events[k];
    hide FirstCreation, CompletedAfter;
  }

  /** A key is in an explained list exactly when it has been created. */
  lemma {:induction false} ExistsIffCreated(events: seq<FillEvent>, fills: seq<Fill>, origin: seq<int>,
                                            resolver: string, secretIndex: int)
    requires Explains(events, fills, origin)
    ensures Exists(fills, resolver, secretIndex) <==> CreatedIn(events, resolver, secretIndex)
  {
    if Exists(fills, resolver, secretIndex) {
      var i :| 0 <= i < |fills| && SameKey(fills[i], resolver, secretIndex);
      assert EntryOf(events, origin[i], fills[i]);
      assert Creates(events[origin[i]], resolver, secretIndex);
    }
    if CreatedIn(events, resolver, secretIndex) {
      var k := FirstOf(events, resolver, secretIndex);
      var i :| 0 <= i < |origin| && origin[i] == k;
      assert EntryOf(events, origin[i], fills[i]);
      assert SameKey(fills[i], resolver, secretIndex);
    }
  }

  lemma {:induction false} FirstOf(events: seq<FillEvent>, resolver: string, secretIndex: int) returns (k: int)
    requires CreatedIn(events, resolver, secretIndex)
    ensures FirstCreation(events, k) && Creates(events[k], resolver, secretIndex)
  {
    k := 0;
    while !Creates(events[k], resolver, secretIndex)
      invariant 0 <= k < |events|
      invariant forall j :: 0 <= j < k ==> !Creates(events[j], resolver, secretIndex)
      decreases |events| - k
    {
      k := k + 1;
    }
  }

  lemma {:induction false} ExplainSame(events: seq<FillEvent>, fills: seq<Fill>, origin: seq<int>, last: FillEvent)
    requires Explains(events, fills, origin)
    requires last.FillCreated? ==> CreatedIn(events, last.resolver, last.secretIndex)
    ensures Explains(events + [last], if last.FillCompleted? then Update(fills, last) else fills, origin)
  {
    hide EntryOf, FirstCreation, CreatedIn;
    var after := if last.FillCompleted? then Update(fills, last) else fills;
    forall i | 0 <= i < |fills|
      ensures EntryOf(events + [last], origin[i], after[i])
    {
      EntrySnoc(events, last, origin[i], fills[i]);
    }
    forall k | FirstCreation(events + [last], k)
      ensures k in origin
    {
      FirstCreationSnoc(events, last, k);
      WithinEvents(events + [last], k);
    }
  }

  lemma {:induction false} WithinEvents(events: seq<FillEvent>, k: int)
    requires FirstCreation(events, k)
    ensures 0 <= k < |events|
  {
  }

  lemma {:induction false} ExplainNew(events: seq<FillEvent>, fills: seq<Fill>, origin: seq<int>, last: FillEvent)
    requires Explains(events, fills, origin)
    requires last.FillCreated? && !CreatedIn(events, last.resolver, last.secretIndex)
    ensures Explains(events + [last], fills + [NewFill(last)], origin + [|events|])
  {
    var all, after, origins := events + [last], fills + [NewFill(last)], origin + [|events|];
    FirstCreationSnoc(events, last, |events|);
    assert EntryOf(all, |events|, NewFill(last)) by { assert all[|events|] == last; }
    assert forall i :: 0 <= i < |fills| ==> EntryOf(events, origin[i], fills[i]) && origin[i] < |events|;
    hide EntryOf, FirstCreation, CreatedIn;
    forall i | 0 <= i < |after|
      ensures EntryOf(all, origins[i], after[i])
    {
      if i < |fills| {
        EntrySnoc(events, last, origin[i], fills[i]);
      }
    }
    forall k | FirstCreation(all, k)
      ensures k in origins
    {
      FirstCreationSnoc(events, last, k);
      WithinEvents(all, k);
      assert origins[|origin|] == |events|;
      assert k < |events| ==> k in origin;
    }
  }

  /**
   After every sequence of events the list holds exactly one entry for each key created, in the order of first
   creation, with the data of its first creation, and completed exactly when its index was completed after that.
   */
  lemma {:induction false} ListIsHistory(events: seq<FillEvent>) returns (origin: seq<int>)
    ensures Explains(events, UpdateAll([], events), origin)
    decreases |events|
  {
    if events == [] {
      origin := [];
    } else {
      var front, last := events[..|events| - 1], events[|events| - 1];
      var fills := UpdateAll([], front);
      origin := ListIsHistory(front);
      hide Explains, Exists, CreatedIn;
      assert events == front + [last];
      if last.FillCreated? {
        ExistsIffCreated(front, fills, origin, last.resolver, last.secretIndex);
        if CreatedIn(front, last.resolver, last.secretIndex) {
          ExplainSame(front, fills, origin, last);
        } else {
          ExplainNew(front, fills, origin, last);
          origin := origin + [|front|];
        }
      } else {
        ExplainSame(front, fills, origin, last);
      }
    }
  }

  /** `progress` is the largest percentage that the first creations reach, or zero. */
  ghost predicate LargestReached(events: seq<FillEvent>, progress: real) {
    && progress >= 0.0
    && (forall k :: FirstCreation(events, k) ==> Reached(events[k]) <= progress)
    && (progress > 0.0 ==> exists k :: FirstCreation(events, k) && Reached(events[k]) == progress)
  }

  lemma {:induction false} ProgressOfExplained(events: seq<FillEvent>, fills: seq<Fill>, origin: seq<int>)
    requires Explains(events, fills, origin)
    ensures LargestReached(events, Progress(fills))
  {
    ProgressOf(fills);
    hide Progress, CompletedAfter;
    forall k | FirstCreation(events, k)
      ensures Reached(events[k]) <= Progress(fills)
    {
      var i :| 0 <= i < |origin| && origin[i] == k;
      assert EntryOf(events, origin[i], fills[i]);
    }
    if Progress(fills) > 0.0 {
      var i :| 0 <= i < |fills| && fills[i].cumulativePercentage == Progress(fills);
      assert EntryOf(events, origin[i], fills[i]);
    }
  }

  /** After every sequence of events the progress bar stands at the largest percentage that a first creation has reached. */
  lemma {:induction false} ProgressIsLargest(events: seq<FillEvent>)
    ensures LargestReached(events, Progress(UpdateAll([], events)))
  {
    hide *;
    var origin := ListIsHistory(events);
    ProgressOfExplained(events, UpdateAll([], events), origin);
  }
}

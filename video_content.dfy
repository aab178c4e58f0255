/**
 * Interactive-video content (app/registry/interactive-video/schema.ts):
 * the interaction records, the in-place sort by time that both the schema
 * and the player use, and the schema's spacing refinement: interactions
 * must lie at least 5 seconds apart.
 */
module VideoContent {
  import opened Wrappers

  datatype InteractionKind = Fact | Quiz
  datatype FactContent = FactContent(title: string, description: string)
  datatype QuizAnswer = QuizAnswer(text: string, correct: bool)
  datatype QuizContent = QuizContent(question: string, answers: seq<QuizAnswer>)

  /** One time-based event; times are exact reals. */
  datatype Interaction = Interaction(
    time: real,
    kind: InteractionKind,
    factContent: Option<FactContent>,
    quizContent: Option<QuizContent>)

  /** `time: z.number().min(0)`; the kind is one of the two enum tags by construction. */
  predicate WellFormed(i: Interaction) {
    i.time >= 0.0
  }

  const MinGap: real := 5.0
  const SpacingMessage: string := "Interactions must be at least 5 seconds apart."

  function Gap(a: real, b: real): real {
    if a <= b then b - a else a - b
  }

  predicate SortedByTime(s: seq<Interaction>) {
    forall i, j :: 0 <= i < j < |s| ==> s[i].time <= s[j].time
  }

  /** No two interactions, equal times included, are less than 5 seconds apart. */
  predicate WellSpaced(s: seq<Interaction>) {
    forall i, j :: 0 <= i < |s| && 0 <= j < |s| && i != j ==> Gap(s[i].time, s[j].time) >= MinGap
  }

  /** Every consecutive gap is at least 5 seconds. */
  predicate ConsecutiveGapsOk(s: seq<Interaction>) {
    forall k :: 0 <= k < |s| - 1 ==> s[k + 1].time - s[k].time >= MinGap
  }

  /** The elements of `a` at positions `lo` up to `hi` are in time order. */
  predicate SortedBetween(a: array<Interaction>, lo: int, hi: int)
    reads a
    requires 0 <= lo <= hi <= a.Length
  {
    forall x, y :: lo <= x < y < hi ==> a[x].time <= a[y].time
  }

  /** `a.sort((x, y) => x.time - y.time)`: sorts the array in place by time. */
  method SortByTime(a: array<Interaction>)
    modifies a
    ensures SortedByTime(a[..])
    ensures multiset(a[..]) == old(multiset(a[..]))
  {
    var i := 1;
    while i < a.Length
      invariant a.Length == 0 || 1 <= i <= a.Length
      invariant a.Length > 0 ==> SortedBetween(a, 0, i)
      invariant multiset(a[..]) == old(multiset(a[..]))
    {
      Sink(a, i);
      i := i + 1;
    }
  }

  /**
   * Moves `a[i]` down past every earlier element with a strictly later
   * time, so that the first `i + 1` elements are in time order.
   */
  method Sink(a: array<Interaction>, i: nat)
    requires 0 < i < a.Length && SortedBetween(a, 0, i)
    modifies a
    ensures SortedBetween(a, 0, i + 1)
    ensures multiset(a[..]) == old(multiset(a[..]))
  {
    var j := i;
    while j > 0 && a[j - 1].time > a[j].time
      invariant 0 <= j <= i
      invariant forall x, y :: 0 <= x < y <= i && x != j && y != j ==> a[x].time <= a[y].time
      invariant forall y :: j < y <= i ==> a[j].time < a[y].time
      invariant multiset(a[..]) == old(multiset(a[..]))
    {
      Swap(a, j);
      j := j - 1;
    }
  }

  /** Exchanges `a[j - 1]` and `a[j]`. */
  method Swap(a: array<Interaction>, j: nat)
    requires 0 < j < a.Length
    modifies a
    ensures a[j - 1] == old(a[j]) && a[j] == old(a[j - 1])
    ensures forall k :: 0 <= k < a.Length && k != j - 1 && k != j ==> a[k] == old(a[k])
    ensures multiset(a[..]) == old(multiset(a[..]))
  {
    a[j - 1], a[j] := a[j], a[j - 1];
  }

  /** On a time-sorted list, consecutive gaps decide the spacing of all pairs. */
  lemma SortedSpacing(s: seq<Interaction>)
    requires SortedByTime(s)
    ensures ConsecutiveGapsOk(s) <==> WellSpaced(s)
  {
    if ConsecutiveGapsOk(s) {
      forall i, j | 0 <= i < |s| && 0 <= j < |s| && i != j
        ensures Gap(s[i].time, s[j].time) >= MinGap
      {
        var lo, hi := if i < j then i else j, if i < j then j else i;
        assert s[lo + 1].time - s[lo].time >= MinGap;
        assert s[lo + 1].time <= s[hi].time;
      }
    }
    if WellSpaced(s) {
      forall k | 0 <= k < |s| - 1
        ensures s[k + 1].time - s[k].time >= MinGap
      {
        assert Gap(s[k].time, s[k + 1].time) >= MinGap;
      }
    }
  }

  lemma TwoPositionsCount(s: seq<Interaction>, i: nat, j: nat)
    requires i < j < |s| && s[i] == s[j]
    ensures multiset(s)[s[i]] >= 2
  {
    assert s == s[..i] + [s[i]] + s[i + 1..];
    assert s[i + 1..][j - i - 1] == s[j];
    assert s[j] in multiset(s[i + 1..]);
  }

  lemma CountTwoPositions(s: seq<Interaction>, x: Interaction)
    requires multiset(s)[x] >= 2
    ensures exists p, q :: 0 <= p < q < |s| && s[p] == x && s[q] == x
  {
    var p :| 0 <= p < |s| && s[p] == x;
    var rest := s[..p] + s[p + 1..];
    assert s == s[..p] + [x] + s[p + 1..];
    assert multiset(s) == multiset(s[..p]) + multiset{x} + multiset(s[p + 1..]);
    assert x in multiset(rest);
    var r :| 0 <= r < |rest| && rest[r] == x;
    if r < p {
      assert s[r] == x;
    } else {
      assert s[r + 1] == x;
    }
  }

  lemma SpacingOneWay(a: seq<Interaction>, b: seq<Interaction>)
    requires multiset(a) == multiset(b) && WellSpaced(a)
    ensures WellSpaced(b)
  {
    forall i, j | 0 <= i < |b| && 0 <= j < |b| && i != j
      ensures Gap(b[i].time, b[j].time) >= MinGap
    {
      assert b[i] in multiset(a) && b[j] in multiset(a);
      var p :| 0 <= p < |a| && a[p] == b[i];
      var q :| 0 <= q < |a| && a[q] == b[j];
      if p == q {
        if i < j { TwoPositionsCount(b, i, j); } else { TwoPositionsCount(b, j, i); }
        CountTwoPositions(a, b[i]);
        assert false;
      }
    }
  }

  /** Reordering the interactions does not change whether they are well spaced. */
  lemma SpacingIgnoresOrder(a: seq<Interaction>, b: seq<Interaction>)
    requires multiset(a) == multiset(b)
    ensures WellSpaced(a) <==> WellSpaced(b)
  {
    if WellSpaced(a) { SpacingOneWay(a, b); }
    if WellSpaced(b) { SpacingOneWay(b, a); }
  }

  /**
   * The `refine` on `interactions` (schema.ts:34-42): sort a copy by time,
   * reject at the first consecutive gap under 5 seconds. The issue it
   * raises carries the schema's message.
   */
  method CheckSpacing(interactions: seq<Interaction>) returns (issue: Option<string>)
    ensures issue.None? <==> WellSpaced(interactions)
    ensures issue.Some? ==> issue.value == SpacingMessage
  {
    var sorted := new Interaction[|interactions|](k requires 0 <= k < |interactions| => interactions[k]);
    assert sorted[..] == interactions;
    SortByTime(sorted);
    SpacingIgnoresOrder(sorted[..], interactions);
    SortedSpacing(sorted[..]);
    var i := 0;
    while i < sorted.Length - 1
      invariant 0 <= i <= if sorted.Length == 0 then 0 else sorted.Length - 1
      invariant forall k :: 0 <= k < i ==> sorted[k + 1].time - sorted[k].time >= MinGap
    {
      if sorted[i + 1].time - sorted[i].time < MinGap {
        return Some(SpacingMessage);
      }
      i := i + 1;
    }
    return None;
  }

  /** The empty list and any single interaction pass the check. */
  lemma ShortListsWellSpaced(s: seq<Interaction>)
    requires |s| <= 1
    ensures WellSpaced(s)
  {
  }
}

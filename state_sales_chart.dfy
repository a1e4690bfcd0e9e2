/**
 * The per-state sales ranking of `StateSalesChart.tsx`: tickets are counted
 * by their buyer's state into a dictionary (kept here as its entries in
 * insertion order), the entries are ranked by count, largest first, and each
 * gets the width of its bar as a percentage of the largest count.
 */
module StateSales {
  import opened Wrappers
  import Sorting

  /** The name a ticket without a state is counted under. */
  const UnknownState: string := "Desconocido"

  /** The fields of a ticket the chart reads. */
  datatype TicketWithState = TicketWithState(id: string, clientState: Option<string>)

  /** One entry of the `counts` dictionary. */
  datatype StateCount = StateCount(name: string, count: nat)

  /** One bar of the chart. */
  datatype StateStat = StateStat(name: string, count: nat, percent: real)

  /** `t.clientState || "Desconocido"`: a null, absent or empty state counts as unknown. */
  function StateOf(t: TicketWithState): (r: string)
    ensures r != []
    ensures r == UnknownState <==> t.clientState.None? || t.clientState.value == [] || t.clientState.value == UnknownState
    ensures r != UnknownState ==> t.clientState.Some? && r == t.clientState.value
  {
    if t.clientState.Some? && t.clientState.value != [] then t.clientState.value else UnknownState
  }

  /** The state each ticket is counted under, in ticket order. */
  function States(tickets: seq<TicketWithState>): (r: seq<string>)
    ensures |r| == |tickets|
    ensures forall k :: 0 <= k < |r| ==> r[k] == StateOf(tickets[k])
  {
    if tickets == [] then [] else States(tickets[..|tickets| - 1]) + [StateOf(tickets[|tickets| - 1])]
  }

  function Name(c: StateCount): string { c.name }

  function NegCount(c: StateCount): int { 0 - c.count as int }

  /** The position of the entry for `name`, if the dictionary has one. */
  function Lookup(counts: seq<StateCount>, name: string): (r: Option<nat>)
    ensures r.Some? ==> r.value < |counts| && counts[r.value].name == name
    ensures r.None? <==> forall k :: 0 <= k < |counts| ==> counts[k].name != name
  {
    if counts == [] then None
    else if counts[|counts| - 1].name == name then Some(|counts| - 1)
    else Lookup(counts[..|counts| - 1], name)
  }

  /** `counts[state] = (counts[state] || 0) + 1`: an existing entry goes up by one in place, a new one is added last. */
  function Bump(counts: seq<StateCount>, name: string): seq<StateCount>
  {
    match Lookup(counts, name)
    case Some(k) => counts[k := StateCount(name, counts[k].count + 1)]
    case None => counts + [StateCount(name, 1)]
  }

  /** The dictionary after counting `labels` one after the other; it has entries once there is a label. */
  function Tally(labels: seq<string>): (r: seq<StateCount>)
    ensures r == [] <==> labels == []
  {
    if labels == [] then [] else Bump(Tally(labels[..|labels| - 1]), labels[|labels| - 1])
  }

  /** The sum of the counts. */
  function Sum(counts: seq<StateCount>): nat
  {
    if counts == [] then 0 else Sum(counts[..|counts| - 1]) + counts[|counts| - 1].count
  }

  /** How many times `x` occurs in `s`. */
  function Occurrences(s: seq<string>, x: string): nat
  {
    if s == [] then 0 else Occurrences(s[..|s| - 1], x) + (if s[|s| - 1] == x then 1 else 0)
  }

  /** A label occurs a positive number of times exactly when it is in the sequence, and never more often than the sequence is long. */
  lemma {:induction false} OccurrencesPositive(s: seq<string>, x: string)
    ensures Occurrences(s, x) > 0 <==> x in s
    ensures Occurrences(s, x) <= |s|
  {
    if s != [] {
      OccurrencesPositive(s[..|s| - 1], x);
      assert s == s[..|s| - 1] + [s[|s| - 1]];
    }
  }

  /** `counts` is a count of `labels`: one entry per distinct label, holding the number of times it occurs. */
  predicate CountsOf(counts: seq<StateCount>, labels: seq<string>)
  {
    && Sorting.DistinctBy(counts, Name)
    && (forall k :: 0 <= k < |counts| ==> counts[k].count == Occurrences(labels, counts[k].name) >= 1)
    && (forall x :: x in labels ==> exists k :: 0 <= k < |counts| && counts[k].name == x)
  }

  /** Changing one count changes the sum by the difference. */
  lemma {:induction false} SumUpdate(counts: seq<StateCount>, k: nat, c: StateCount)
    requires k < |counts|
    ensures Sum(counts[k := c]) == Sum(counts) - counts[k].count + c.count
  {
    var n := |counts| - 1;
    if k < n {
      assert counts[k := c][..n] == counts[..n][k := c];
      SumUpdate(counts[..n], k, c);
    } else {
      assert counts[k := c][..n] == counts[..n];
    }
  }

  /** The dictionary counts the labels, one entry per distinct label, and its counts add up to the number of labels. */
  lemma {:induction false} TallyCounts(labels: seq<string>)
    ensures CountsOf(Tally(labels), labels)
    ensures Sum(Tally(labels)) == |labels|
  {
    if labels != [] {
      var init, x := labels[..|labels| - 1], labels[|labels| - 1];
      assert labels == init + [x];
      TallyCounts(init);
      BumpCounts(Tally(init), init, x);
    }
  }

  /** Counting one more label keeps the dictionary a count of the labels seen, and its sum one more. */
  lemma BumpCounts(counts: seq<StateCount>, init: seq<string>, x: string)
    requires CountsOf(counts, init)
    ensures CountsOf(Bump(counts, x), init + [x])
    ensures Sum(Bump(counts, x)) == Sum(counts) + 1
  {
    var found := Lookup(counts, x);
    var bumped := Bump(counts, x);
    if found.Some? {
      var j := found.value;
      assert bumped == counts[j := StateCount(x, counts[j].count + 1)];
      BumpExisting(counts, init, x, j);
    } else {
      assert bumped == counts + [StateCount(x, 1)];
      BumpNew(counts, init, x);
    }
  }

  lemma BumpExisting(counts: seq<StateCount>, init: seq<string>, x: string, j: nat)
    requires CountsOf(counts, init)
    requires j < |counts| && counts[j].name == x
    ensures CountsOf(counts[j := StateCount(x, counts[j].count + 1)], init + [x])
    ensures Sum(counts[j := StateCount(x, counts[j].count + 1)]) == Sum(counts) + 1
  {
    var after := counts[j := StateCount(x, counts[j].count + 1)];
    var labels := init + [x];
    SumUpdate(counts, j, StateCount(x, counts[j].count + 1));
    assert labels[..|init|] == init;
    forall k | 0 <= k < |after| ensures after[k].count == Occurrences(labels, after[k].name) >= 1 {
      if k != j {
        assert after[k] == counts[k] && counts[k].name != x;
      }
    }
    forall y | y in labels ensures exists k :: 0 <= k < |after| && after[k].name == y {
      if y != x {
        assert y in init;
        var k :| 0 <= k < |counts| && counts[k].name == y;
        assert after[k].name == y;
      } else {
        assert after[j].name == y;
      }
    }
  }

  lemma BumpNew(counts: seq<StateCount>, init: seq<string>, x: string)
    requires CountsOf(counts, init)
    requires forall k :: 0 <= k < |counts| ==> counts[k].name != x
    ensures CountsOf(counts + [StateCount(x, 1)], init + [x])
    ensures Sum(counts + [StateCount(x, 1)]) == Sum(counts) + 1
  {
    var after := counts + [StateCount(x, 1)];
    var labels := init + [x];
    assert after[..|after| - 1] == counts;
    assert labels[..|init|] == init;
    assert x !in init;
    OccurrencesPositive(init, x);
    forall k | 0 <= k < |after| ensures after[k].count == Occurrences(labels, after[k].name) >= 1 {
      if k < |counts| {
        assert after[k] == counts[k] && counts[k].name != x;
      }
    }
    forall y | y in labels ensures exists k :: 0 <= k < |after| && after[k].name == y {
      if y != x {
        assert y in init;
        var k :| 0 <= k < |counts| && counts[k].name == y;
        assert after[k].name == y;
      } else {
        assert after[|counts|].name == y;
      }
    }
  }

  /** The largest count: the first entry's, once ranked; zero without entries. */
  function MaxCount(ranked: seq<StateCount>): nat
  {
    if |ranked| > 0 then ranked[0].count else 0
  }

  /** `maxVal > 0 ? (count / maxVal) * 100 : 0`. */
  function Percent(count: nat, maxVal: nat): real
  {
    if maxVal > 0 then count as real / maxVal as real * 100.0 else 0.0
  }

  /** A count no larger than the maximum and not zero gives a bar in (0, 100]; the maximum itself gives 100. */
  lemma PercentBounds(count: nat, maxVal: nat)
    requires 0 < count <= maxVal
    ensures 0.0 < Percent(count, maxVal) <= 100.0
    ensures count == maxVal ==> Percent(count, maxVal) == 100.0
  {
    var c, m := count as real, maxVal as real;
    var q := c / m;
    assert q * m == c;
    assert 0.0 < q;
    assert (1.0 - q) * m == m - c;
    assert q <= 1.0;
    if count == maxVal {
      assert q == 1.0;
    }
  }

  /** The bars: each ranked entry with its percentage of the largest count. */
  function WithPercents(ranked: seq<StateCount>): (r: seq<StateStat>)
    ensures |r| == |ranked|
    ensures forall k :: 0 <= k < |r| ==>
      r[k] == StateStat(ranked[k].name, ranked[k].count, Percent(ranked[k].count, MaxCount(ranked)))
  {
    seq(|ranked|, k requires 0 <= k < |ranked| => StateStat(ranked[k].name, ranked[k].count, Percent(ranked[k].count, MaxCount(ranked))))
  }

  /** `stats`: count, rank by count with ties in insertion order, and scale to the largest count. */
  function Stats(tickets: seq<TicketWithState>): seq<StateStat>
  {
    WithPercents(Sorting.SortBy(Tally(States(tickets)), NegCount))
  }

  /** The `useMemo` computation: the counting loop, then the ranking and the percentages. */
  method ComputeStats(tickets: seq<TicketWithState>) returns (stats: seq<StateStat>)
    ensures stats == Stats(tickets)
  {
    var counts := CountByState(tickets);
    stats := WithPercents(Sorting.SortBy(counts, NegCount));
  }

  /** The `forEach` loop that fills the dictionary. */
  method CountByState(tickets: seq<TicketWithState>) returns (counts: seq<StateCount>)
    ensures counts == Tally(States(tickets))
  {
    counts := [];
    ghost var labels := States(tickets);
    for i := 0 to |tickets|
      invariant counts == Tally(labels[..i])
    {
      TallyStep(labels, i);
      counts := AddOne(counts, StateOf(tickets[i]));
    }
    assert labels[..|tickets|] == labels;
  }

  /** One step of the loop: the state's entry goes up by one, or is added with a count of one. */
  method AddOne(counts: seq<StateCount>, state: string) returns (r: seq<StateCount>)
    ensures r == Bump(counts, state)
  {
    var found := Lookup(counts, state);
    if found.Some? {
      r := counts[found.value := StateCount(state, counts[found.value].count + 1)];
    } else {
      r := counts + [StateCount(state, 1)];
    }
  }

  /** Counting one more label bumps that label's entry. */
  lemma TallyStep(labels: seq<string>, i: nat)
    requires i < |labels|
    ensures Tally(labels[..i + 1]) == Bump(Tally(labels[..i]), labels[i])
  {
    var seen := labels[..i + 1];
    assert seen[..i] == labels[..i];
  }

  /** A reordering of a count that keeps the names distinct is still a count of the same labels. */
  lemma PermutedCounts(counts: seq<StateCount>, ranked: seq<StateCount>, labels: seq<string>)
    requires CountsOf(counts, labels)
    requires multiset(ranked) == multiset(counts)
    requires Sorting.DistinctBy(ranked, Name)
    ensures CountsOf(ranked, labels)
  {
    forall k | 0 <= k < |ranked| ensures ranked[k].count == Occurrences(labels, ranked[k].name) >= 1 {
      assert ranked[k] in multiset(counts);
      var j :| 0 <= j < |counts| && counts[j] == ranked[k];
    }
    forall x | x in labels ensures exists k :: 0 <= k < |ranked| && ranked[k].name == x {
      var j :| 0 <= j < |counts| && counts[j].name == x;
      assert counts[j] in multiset(ranked);
      var k :| 0 <= k < |ranked| && ranked[k] == counts[j];
    }
  }

  /** Ordered by the negated count is largest count first. */
  lemma LargestFirst(ranked: seq<StateCount>)
    requires Sorting.SortedBy(ranked, NegCount)
    ensures forall i, j :: 0 <= i < j < |ranked| ==> ranked[i].count >= ranked[j].count
  {
    forall i, j | 0 <= i < j < |ranked| ensures ranked[i].count >= ranked[j].count {
      assert NegCount(ranked[i]) <= NegCount(ranked[j]);
    }
  }

  /** Ranking keeps the dictionary a count of the labels, ordered by count, largest first. */
  lemma RankedCounts(counts: seq<StateCount>, labels: seq<string>)
    requires CountsOf(counts, labels)
    ensures var ranked := Sorting.SortBy(counts, NegCount);
      && CountsOf(ranked, labels)
      && (forall i, j :: 0 <= i < j < |ranked| ==> ranked[i].count >= ranked[j].count)
  {
    var ranked := Sorting.SortBy(counts, NegCount);
    Sorting.SortByKeepsDistinct(counts, NegCount, Name);
    PermutedCounts(counts, ranked, labels);
    LargestFirst(ranked);
  }

  /** The dictionary of any labels, once ranked, is a count of them, largest first. */
  lemma RankedTally(labels: seq<string>)
    ensures var ranked := Sorting.SortBy(Tally(labels), NegCount);
      && CountsOf(ranked, labels)
      && (forall i, j :: 0 <= i < j < |ranked| ==> ranked[i].count >= ranked[j].count)
  {
    TallyCounts(labels);
    RankedCounts(Tally(labels), labels);
  }

  /** Over entries ranked largest first, none of them zero, the first bar is full and every bar lies in (0, 100]. */
  lemma BarWidths(ranked: seq<StateCount>)
    requires forall i, j :: 0 <= i < j < |ranked| ==> ranked[i].count >= ranked[j].count
    requires forall k :: 0 <= k < |ranked| ==> ranked[k].count >= 1
    ensures var stats := WithPercents(ranked);
      && (forall k :: 0 <= k < |stats| ==> 0.0 < stats[k].percent <= 100.0)
      && (stats != [] ==> stats[0].percent == 100.0)
  {
    var stats := WithPercents(ranked);
    forall k | 0 <= k < |stats| ensures 0.0 < stats[k].percent <= 100.0 {
      assert ranked[k].count <= ranked[0].count;
      PercentBounds(ranked[k].count, ranked[0].count);
    }
    if stats != [] {
      PercentBounds(ranked[0].count, ranked[0].count);
    }
  }

  /** The bars of a ranked count carry its names once each, its counts and its order. */
  lemma BarsOfCounts(ranked: seq<StateCount>, labels: seq<string>)
    requires CountsOf(ranked, labels)
    requires forall i, j :: 0 <= i < j < |ranked| ==> ranked[i].count >= ranked[j].count
    ensures var stats := WithPercents(ranked);
      && (forall i, j :: 0 <= i < j < |stats| ==> stats[i].name != stats[j].name && stats[i].count >= stats[j].count)
      && (forall k :: 0 <= k < |stats| ==> stats[k].count == Occurrences(labels, stats[k].name))
      && (forall i :: 0 <= i < |labels| ==> exists k :: 0 <= k < |stats| && stats[k].name == labels[i])
  {
    var stats := WithPercents(ranked);
    forall i, j | 0 <= i < j < |stats| ensures stats[i].name != stats[j].name {
      assert Name(ranked[i]) != Name(ranked[j]);
    }
    forall i | 0 <= i < |labels| ensures exists k :: 0 <= k < |stats| && stats[k].name == labels[i] {
      assert labels[i] in labels;
      var k :| 0 <= k < |ranked| && ranked[k].name == labels[i];
      assert stats[k].name == labels[i];
    }
  }

  /** The bars name each occurring state once, with its number of tickets, largest count first. */
  lemma StatsCounts(tickets: seq<TicketWithState>)
    ensures var stats := Stats(tickets);
      && (forall i, j :: 0 <= i < j < |stats| ==> stats[i].name != stats[j].name && stats[i].count >= stats[j].count)
      && (forall k :: 0 <= k < |stats| ==> stats[k].count == Occurrences(States(tickets), stats[k].name))
      && (forall i :: 0 <= i < |tickets| ==> exists k :: 0 <= k < |stats| && stats[k].name == StateOf(tickets[i]))
  {
    var labels := States(tickets);
    var ranked := Sorting.SortBy(Tally(labels), NegCount);
    assert Stats(tickets) == WithPercents(ranked);
    RankedTally(labels);
    BarsOfCounts(ranked, labels);
    var stats := WithPercents(ranked);
    forall i | 0 <= i < |tickets| ensures exists k :: 0 <= k < |stats| && stats[k].name == StateOf(tickets[i]) {
      assert labels[i] == StateOf(tickets[i]);
    }
  }

  /** There are bars exactly when there are tickets; the first is full and every one lies in (0, 100]. */
  lemma StatsWidths(tickets: seq<TicketWithState>)
    ensures var stats := Stats(tickets);
      && (stats == [] <==> tickets == [])
      && (forall k :: 0 <= k < |stats| ==> 0.0 < stats[k].percent <= 100.0)
      && (stats != [] ==> stats[0].percent == 100.0)
  {
    var labels := States(tickets);
    var ranked := Sorting.SortBy(Tally(labels), NegCount);
    assert Stats(tickets) == WithPercents(ranked);
    assert |ranked| == |Tally(labels)|;
    RankedTally(labels);
    BarWidths(ranked);
  }

  /**
   * What the chart shows: one bar per state that occurs, under its name once,
   * with the number of tickets counted under it, largest count first, the
   * first bar at 100 and every bar in (0, 100]; no tickets, no bars.
   */
  lemma StatsRanking(tickets: seq<TicketWithState>)
    ensures var stats := Stats(tickets);
      && (stats == [] <==> tickets == [])
      && (forall i, j :: 0 <= i < j < |stats| ==> stats[i].name != stats[j].name && stats[i].count >= stats[j].count)
      && (forall k :: 0 <= k < |stats| ==> stats[k].count == Occurrences(States(tickets), stats[k].name))
      && (forall k :: 0 <= k < |stats| ==> 0.0 < stats[k].percent <= 100.0)
      && (stats != [] ==> stats[0].percent == 100.0)
      && (forall i :: 0 <= i < |tickets| ==> exists k :: 0 <= k < |stats| && stats[k].name == StateOf(tickets[i]))
  {
    StatsCounts(tickets);
    StatsWidths(tickets);
  }
}

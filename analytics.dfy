/**
 * `getAnalytics(period)` of lib/db.js: completed orders in a time window,
 * grouped by team member in order of first appearance, with the number of
 * timed orders and their rounded mean duration per member.
 *
 * The specification functions walk a list from its END (the last element is
 * the newest step), which is the order the aggregation loop consumes it in.
 */
module Analytics {
  import opened Wrappers
  import opened Records
  import opened JsMath
  import Db

  /** Start of the window: now minus one, seven or thirty days, or the epoch for any other token. */
  function Cutoff(period: string, now: int): int {
    if period == "day" then now - MsPerDay
    else if period == "week" then now - 7 * MsPerDay
    else if period == "month" then now - 30 * MsPerDay
    else 0
  }

  /** Completed, with a completion time no earlier than the cutoff (there is no upper bound). */
  predicate InWindow(o: Order, cutoff: int) {
    o.status == "completed" && o.completedAt.Some? && o.completedAt.value >= cutoff
  }

  /** The window filter, keeping list order. */
  function Windowed(orders: seq<Order>, cutoff: int): (ws: seq<Order>)
    ensures |ws| <= |orders|
    ensures forall o :: o in ws <==> o in orders && InWindow(o, cutoff)
  {
    if orders == [] then []
    else
      assert orders == [orders[0]] + orders[1..];
      (if InWindow(orders[0], cutoff) then [orders[0]] else []) + Windowed(orders[1..], cutoff)
  }

  /** The filter keeps every order in the window as often as the input has it, and no other. */
  lemma {:induction false} WindowedCounts(orders: seq<Order>, cutoff: int)
    ensures forall o :: multiset(Windowed(orders, cutoff))[o] == if InWindow(o, cutoff) then multiset(orders)[o] else 0
  {
    if orders != [] {
      WindowedCounts(orders[1..], cutoff);
      assert orders == [orders[0]] + orders[1..];
    }
  }

  /** The filter works order by order: filtering a concatenation concatenates the filtered parts. */
  lemma {:induction false} WindowedAppend(a: seq<Order>, b: seq<Order>, cutoff: int)
    ensures Windowed(a + b, cutoff) == Windowed(a, cutoff) + Windowed(b, cutoff)
  {
    if a != [] {
      assert (a + b)[1..] == a[1..] + b;
      WindowedAppend(a[1..], b, cutoff);
    } else {
      assert a + b == b;
    }
  }

  /** The order counts for `name`: a truthy team member equal to it. */
  predicate TaggedBy(o: Order, name: string) {
    Truthy(o.teamMember) && o.teamMember.value == name
  }

  /** Both timestamps present, so the order has a duration. */
  predicate Timed(o: Order) {
    o.claimedAt.Some? && o.completedAt.Some?
  }

  /** Processing time in whole minutes, `Math.round((completedAt - claimedAt) / 60000)`. */
  function Duration(o: Order): int
    requires Timed(o)
  {
    Minutes(o.completedAt.value - o.claimedAt.value)
  }

  /** Distinct truthy team members, in order of first appearance. */
  function Members(ws: seq<Order>): seq<string> {
    if ws == [] then []
    else
      var m := Members(ws[..|ws| - 1]);
      var o := ws[|ws| - 1];
      if Truthy(o.teamMember) && o.teamMember.value !in m then m + [o.teamMember.value] else m
  }

  /** Durations of the timed orders of `name`, in list order. */
  function Durations(ws: seq<Order>, name: string): seq<int> {
    if ws == [] then []
    else
      var d := Durations(ws[..|ws| - 1], name);
      var o := ws[|ws| - 1];
      if TaggedBy(o, name) && Timed(o) then d + [Duration(o)] else d
  }

  function Sum(xs: seq<int>): int {
    if xs == [] then 0 else Sum(xs[..|xs| - 1]) + xs[|xs| - 1]
  }

  /** The rounded mean, 0 for no values. */
  function MeanMinutes(ds: seq<int>): int {
    if |ds| > 0 then RoundDiv(Sum(ds), |ds|) else 0
  }

  datatype TeamStat = TeamStat(name: string, completedOrders: nat, avgProcessingMinutes: int)

  function StatOf(ws: seq<Order>, name: string): TeamStat {
    var ds := Durations(ws, name);
    TeamStat(name, |ds|, MeanMinutes(ds))
  }

  /** One entry per member, in first-appearance order. */
  function TeamStats(ws: seq<Order>): seq<TeamStat> {
    var m := Members(ws);
    seq(|m|, i requires 0 <= i < |m| => StatOf(ws, m[i]))
  }

  /** The per-member accumulator the aggregation keeps in its dictionary. */
  datatype Tally = Tally(name: string, completedOrders: nat, totalMinutes: int, durations: seq<int>)

  /** A name that never tags an order has no durations. */
  lemma {:induction false} DurationsOfNonMember(ws: seq<Order>, name: string)
    requires name !in Members(ws)
    ensures Durations(ws, name) == []
  {
    if ws != [] {
      DurationsOfNonMember(ws[..|ws| - 1], name);
    }
  }

  /** How one more order extends the member list. */
  lemma MembersStep(ws: seq<Order>, o: Order)
    ensures Members(ws + [o]) ==
      if Truthy(o.teamMember) && o.teamMember.value !in Members(ws) then Members(ws) + [o.teamMember.value]
      else Members(ws)
  {
    assert (ws + [o])[..|ws|] == ws;
  }

  /** How one more order extends the duration list of `name`. */
  lemma DurationsStep(ws: seq<Order>, o: Order, name: string)
    ensures Durations(ws + [o], name) ==
      if TaggedBy(o, name) && Timed(o) then Durations(ws, name) + [Duration(o)] else Durations(ws, name)
  {
    assert (ws + [o])[..|ws|] == ws;
  }

  lemma SumAppend(xs: seq<int>, x: int)
    ensures Sum(xs + [x]) == Sum(xs) + x
  {
    assert (xs + [x])[..|xs|] == xs;
  }

  /** The accumulator of `name` agrees with the duration list of `name` in `ws`. */
  ghost predicate TallyAgrees(ws: seq<Order>, name: string, t: Tally) {
    && t.name == name
    && t.durations == Durations(ws, name)
    && t.completedOrders == |t.durations|
    && t.totalMinutes == Sum(t.durations)
  }

  /** Tallies are keyed by member and agree with the duration lists of `ws`. */
  ghost predicate TalliesMatch(ws: seq<Order>, names: seq<string>, tallies: map<string, Tally>) {
    && names == Members(ws)
    && (forall n :: n in tallies <==> n in names)
    && forall n :: n in tallies ==> TallyAgrees(ws, n, tallies[n])
  }

  /** An order that does not name `name` leaves its accumulator as it was. */
  lemma UntaggedKeepsTally(ws: seq<Order>, o: Order, name: string, t: Tally)
    requires !TaggedBy(o, name) && TallyAgrees(ws, name, t)
    ensures TallyAgrees(ws + [o], name, t)
  {
    DurationsStep(ws, o, name);
  }

  /** A member seen for the first time starts from an empty accumulator. */
  lemma StartTally(ws: seq<Order>, names: seq<string>, tallies: map<string, Tally>, name: string)
    requires TalliesMatch(ws, names, tallies) && name !in tallies
    ensures TallyAgrees(ws, name, Tally(name, 0, 0, []))
  {
    DurationsOfNonMember(ws, name);
  }

  /** An untimed order of `name` is counted nowhere. */
  lemma UntimedKeepsTally(ws: seq<Order>, o: Order, name: string, t: Tally)
    requires !Timed(o) && TallyAgrees(ws, name, t)
    ensures TallyAgrees(ws + [o], name, t)
  {
    DurationsStep(ws, o, name);
  }

  /** A timed order of `name` adds one order and its minutes. */
  lemma AddDuration(ws: seq<Order>, o: Order, name: string, t: Tally)
    requires TaggedBy(o, name) && Timed(o) && TallyAgrees(ws, name, t)
    ensures var d := Minutes(o.completedAt.value - o.claimedAt.value);
      TallyAgrees(ws + [o], name, t.(completedOrders := t.completedOrders + 1,
                                     totalMinutes := t.totalMinutes + d,
                                     durations := t.durations + [d]))
  {
    DurationsStep(ws, o, name);
    SumAppend(t.durations, Minutes(o.completedAt.value - o.claimedAt.value));
  }

  /** Storing the updated accumulator of the member of `o` re-establishes the match for `ws + [o]`. */
  lemma TaggedStep(ws: seq<Order>, o: Order, names: seq<string>, tallies: map<string, Tally>, t: Tally)
    requires TalliesMatch(ws, names, tallies) && Truthy(o.teamMember)
    requires TallyAgrees(ws + [o], o.teamMember.value, t)
    ensures var name := o.teamMember.value;
      TalliesMatch(ws + [o], if name in tallies then names else names + [name], tallies[name := t])
  {
    MembersStep(ws, o);
    var name := o.teamMember.value;
    forall n | n in tallies && n != name ensures TallyAgrees(ws + [o], n, tallies[n]) {
      UntaggedKeepsTally(ws, o, n, tallies[n]);
    }
  }

  /** An order without a truthy member changes nothing. */
  lemma UntaggedStep(ws: seq<Order>, o: Order, names: seq<string>, tallies: map<string, Tally>)
    requires TalliesMatch(ws, names, tallies) && !Truthy(o.teamMember)
    ensures TalliesMatch(ws + [o], names, tallies)
  {
    MembersStep(ws, o);
    forall n | n in tallies ensures TallyAgrees(ws + [o], n, tallies[n]) {
      UntaggedKeepsTally(ws, o, n, tallies[n]);
    }
  }

  /** The `forEach` over the windowed orders, filling the `teamStats` dictionary. */
  method TallyOrders(completed: seq<Order>) returns (names: seq<string>, tallies: map<string, Tally>)
    ensures TalliesMatch(completed, names, tallies)
  {
    names, tallies := [], map[];
    var i := 0;
    while i < |completed|
      invariant 0 <= i <= |completed|
      invariant TalliesMatch(completed[..i], names, tallies)
    {
      assert completed[..i + 1] == completed[..i] + [completed[i]];
      names, tallies := TallyOne(completed[..i], completed[i], names, tallies);
      i := i + 1;
    }
    assert completed[..i] == completed;
  }

  /** One step of the `forEach`: registers the member of `o` and adds its duration when it is timed. */
  method TallyOne(ghost ws: seq<Order>, o: Order, names0: seq<string>, tallies0: map<string, Tally>)
    returns (names: seq<string>, tallies: map<string, Tally>)
    requires TalliesMatch(ws, names0, tallies0)
    ensures TalliesMatch(ws + [o], names, tallies)
  {
    names, tallies := names0, tallies0;
    if Truthy(o.teamMember) {
      var name := o.teamMember.value;
      var t;
      if name in tallies {
        t := tallies[name];
      } else {
        StartTally(ws, names, tallies, name);
        t := Tally(name, 0, 0, []);
        names := names + [name];
      }
      if o.claimedAt.Some? && o.completedAt.Some? {
        var d := Minutes(o.completedAt.value - o.claimedAt.value);
        AddDuration(ws, o, name, t);
        t := t.(completedOrders := t.completedOrders + 1,
                totalMinutes := t.totalMinutes + d,
                durations := t.durations + [d]);
      } else {
        UntimedKeepsTally(ws, o, name, t);
      }
      TaggedStep(ws, o, names0, tallies0, t);
      tallies := tallies[name := t];
    } else {
      UntaggedStep(ws, o, names, tallies);
    }
  }

  method GetAnalytics(stored: Option<seq<Order>>, period: string, now: int) returns (teamStats: seq<TeamStat>)
    ensures teamStats == TeamStats(Windowed(Db.GetFromEdge(stored, []), Cutoff(period, now)))
  {
    var orders := Db.GetFromEdge(stored, []);
    var completed := Windowed(orders, Cutoff(period, now));
    var names, tallies := TallyOrders(completed);
    teamStats := [];
    var k := 0;
    while k < |names|
      invariant 0 <= k <= |names|
      invariant |teamStats| == k
      invariant forall j :: 0 <= j < k ==> teamStats[j] == StatOf(completed, names[j])
    {
      var t := tallies[names[k]];
      var avg := if |t.durations| > 0 then RoundDiv(t.totalMinutes, |t.durations|) else 0;
      teamStats := teamStats + [TeamStat(t.name, t.completedOrders, avg)];
      k := k + 1;
    }
  }

  // ---- What the aggregation promises ----

  /** An order completed eight days ago is outside the week, inside the month and all time. */
  lemma EightDaysAgo(o: Order, now: int)
    requires o.status == "completed" && o.completedAt == Some(now - 8 * MsPerDay)
    requires now >= 8 * MsPerDay
    ensures !InWindow(o, Cutoff("week", now))
    ensures InWindow(o, Cutoff("month", now))
    ensures InWindow(o, Cutoff("all", now))
  {
  }

  /** The window has no upper bound: a completion stamped after `now` still counts. */
  lemma FutureCompletionCounts(o: Order, period: string, now: int)
    requires o.status == "completed" && o.completedAt.Some? && o.completedAt.value > now
    requires now >= 0
    ensures InWindow(o, Cutoff(period, now))
  {
  }

  /** The windows nest: day within week within month within all time (once a month has passed since the epoch). */
  lemma WindowsNest(o: Order, now: int)
    requires now >= 30 * MsPerDay
    ensures InWindow(o, Cutoff("day", now)) ==> InWindow(o, Cutoff("week", now))
    ensures InWindow(o, Cutoff("week", now)) ==> InWindow(o, Cutoff("month", now))
    ensures InWindow(o, Cutoff("month", now)) ==> InWindow(o, Cutoff("all", now))
  {
  }

  /** An unknown period token selects the all-time window, the epoch cutoff. */
  lemma UnknownPeriodIsAllTime(o: Order, period: string, now: int)
    requires period != "day" && period != "week" && period != "month"
    ensures InWindow(o, Cutoff(period, now)) <==> InWindow(o, Cutoff("all", now))
  {
  }

  /** Each member appears once. */
  lemma {:induction false} MembersDistinct(ws: seq<Order>)
    ensures forall i, j :: 0 <= i < j < |Members(ws)| ==> Members(ws)[i] != Members(ws)[j]
  {
    if ws != [] {
      MembersDistinct(ws[..|ws| - 1]);
    }
  }

  /** A name is a member exactly when some order of the list is tagged with it. */
  lemma {:induction false} MemberIffTagged(ws: seq<Order>, name: string)
    ensures name in Members(ws) <==> exists k :: 0 <= k < |ws| && TaggedBy(ws[k], name)
  {
    if ws != [] {
      var init := ws[..|ws| - 1];
      MemberIffTagged(init, name);
      if exists k :: 0 <= k < |init| && TaggedBy(init[k], name) {
        var k :| 0 <= k < |init| && TaggedBy(init[k], name);
        assert ws[k] == init[k];
      }
      if exists k :: 0 <= k < |ws| && TaggedBy(ws[k], name) {
        var k :| 0 <= k < |ws| && TaggedBy(ws[k], name);
        if k < |init| {
          assert init[k] == ws[k];
        }
      }
    }
  }

  /** With no tagged order there are no members. */
  lemma {:induction false} UntaggedHasNoMembers(ws: seq<Order>)
    requires forall l :: 0 <= l < |ws| ==> !Truthy(ws[l].teamMember)
    ensures Members(ws) == []
  {
    if ws != [] {
      UntaggedHasNoMembers(ws[..|ws| - 1]);
    }
  }

  /** The first member is the team member of the earliest tagged order. */
  lemma {:induction false} FirstMember(ws: seq<Order>, k: nat)
    requires k < |ws| && Truthy(ws[k].teamMember)
    requires forall l :: 0 <= l < k ==> !Truthy(ws[l].teamMember)
    ensures |Members(ws)| > 0 && Members(ws)[0] == ws[k].teamMember.value
  {
    var init := ws[..|ws| - 1];
    if k == |ws| - 1 {
      UntaggedHasNoMembers(init);
    } else {
      FirstMember(init, k);
    }
  }

  /** The first tagged order of an earlier member precedes every order tagged with a later one. */
  lemma {:induction false} MembersInFirstAppearanceOrder(ws: seq<Order>, i: nat, j: nat)
    requires i < j < |Members(ws)|
    ensures exists k :: 0 <= k < |ws| && TaggedBy(ws[k], Members(ws)[i])
                        && forall l :: 0 <= l <= k ==> !TaggedBy(ws[l], Members(ws)[j])
  {
    var init := ws[..|ws| - 1];
    var m := Members(init);
    if j < |m| {
      MembersInFirstAppearanceOrder(init, i, j);
      var k :| 0 <= k < |init| && TaggedBy(init[k], m[i])
                && forall l :: 0 <= l <= k ==> !TaggedBy(init[l], m[j]);
      assert ws[k] == init[k];
      assert forall l :: 0 <= l <= k ==> ws[l] == init[l];
    } else {
      // Members(ws)[j] is new: no order of `init` carries it
      var name := Members(ws)[j];
      assert name !in m;
      MemberIffTagged(init, name);
      MemberIffTagged(init, m[i]);
      var k :| 0 <= k < |init| && TaggedBy(init[k], m[i]);
      assert ws[k] == init[k];
      assert forall l :: 0 <= l <= k ==> ws[l] == init[l];
    }
  }

  /** Number of windowed orders that are tagged and timed. */
  function CountTimedTagged(ws: seq<Order>): nat {
    if ws == [] then 0
    else
      var o := ws[|ws| - 1];
      CountTimedTagged(ws[..|ws| - 1]) + if Truthy(o.teamMember) && Timed(o) then 1 else 0
  }

  /** Sum of the per-name counts over a list of names. */
  function SumCounts(ws: seq<Order>, names: seq<string>): nat {
    if names == [] then 0
    else SumCounts(ws, names[..|names| - 1]) + |Durations(ws, names[|names| - 1])|
  }

  lemma {:induction false} SumCountsStep(ws: seq<Order>, o: Order, names: seq<string>)
    requires forall i, j :: 0 <= i < j < |names| ==> names[i] != names[j]
    ensures SumCounts(ws + [o], names) ==
      SumCounts(ws, names) + if Truthy(o.teamMember) && Timed(o) && o.teamMember.value in names then 1 else 0
  {
    if names != [] {
      var init := names[..|names| - 1];
      var x := names[|names| - 1];
      SumCountsStep(ws, o, init);
      DurationsStep(ws, o, x);
      assert x !in init;
      assert forall n :: n in names <==> n in init || n == x;
    }
  }

  lemma SumCountsSnoc(ws: seq<Order>, names: seq<string>, x: string)
    ensures SumCounts(ws, names + [x]) == SumCounts(ws, names) + |Durations(ws, x)|
  {
    assert (names + [x])[..|names|] == names;
  }

  /** Summed over all members, the counts give the number of tagged, timed orders. */
  lemma {:induction false} CountsAddUp(ws: seq<Order>)
    ensures SumCounts(ws, Members(ws)) == CountTimedTagged(ws)
  {
    if ws != [] {
      var init := ws[..|ws| - 1];
      var o := ws[|ws| - 1];
      assert ws == init + [o];
      CountsAddUp(init);
      MembersDistinct(init);
      SumCountsStep(init, o, Members(init));
      MembersStep(init, o);
      if Truthy(o.teamMember) && o.teamMember.value !in Members(init) {
        var name := o.teamMember.value;
        SumCountsSnoc(ws, Members(init), name);
        DurationsOfNonMember(init, name);
        DurationsStep(init, o, name);
      }
    }
  }

  /** A member with no timed order is still listed, with zero orders and a zero average. */
  lemma UntimedMemberIsListedWithZeros(ws: seq<Order>, i: nat)
    requires i < |Members(ws)|
    requires Durations(ws, Members(ws)[i]) == []
    ensures |TeamStats(ws)| == |Members(ws)|
    ensures TeamStats(ws)[i] == TeamStat(Members(ws)[i], 0, 0)
  {
  }

  lemma {:induction false} SumBetween(xs: seq<int>, lo: int, hi: int)
    requires forall k :: 0 <= k < |xs| ==> lo <= xs[k] <= hi
    ensures |xs| * lo <= Sum(xs) <= |xs| * hi
  {
    if xs != [] {
      SumBetween(xs[..|xs| - 1], lo, hi);
      assert |xs| * lo == (|xs| - 1) * lo + lo;
      assert |xs| * hi == (|xs| - 1) * hi + hi;
    }
  }

  /** A member's average lies between their shortest and longest duration. */
  lemma MeanBetween(ws: seq<Order>, name: string, lo: int, hi: int)
    requires Durations(ws, name) != []
    requires forall k :: 0 <= k < |Durations(ws, name)| ==> lo <= Durations(ws, name)[k] <= hi
    ensures lo <= StatOf(ws, name).avgProcessingMinutes <= hi
  {
    var ds := Durations(ws, name);
    SumBetween(ds, lo, hi);
    RoundDivBetween(Sum(ds), |ds|, lo, hi);
  }

  /** A single timed order by a member yields one entry: one order, its own duration as the average. */
  lemma SingleTimedOrder(o: Order)
    requires Truthy(o.teamMember) && Timed(o)
    ensures TeamStats([o]) == [TeamStat(o.teamMember.value, 1, Duration(o))]
  {
    var d := Duration(o);
    assert [o][..0] == [];
    assert Members([o]) == [o.teamMember.value];
    assert Durations([o], o.teamMember.value) == [d];
    assert Sum([d]) == d by { assert [d][..0] == []; }
    RoundDivUnique(d, 1, d);
  }

  /** The worked example: one order by Arun, claimed 08:00 and completed 08:30 on 2024-01-02 (UTC). */
  lemma ArunExample()
    ensures
      var claimed := 1704182400000;
      var o := Order("1", "A1", "completed", Some("Arun"), Some(claimed), Some(claimed + 30 * 60000), claimed, []);
      TeamStats(Windowed([o], Cutoff("all", claimed + 30 * 60000))) == [TeamStat("Arun", 1, 30)]
  {
    var claimed := 1704182400000;
    var o := Order("1", "A1", "completed", Some("Arun"), Some(claimed), Some(claimed + 30 * 60000), claimed, []);
    assert Windowed([o], 0) == [o];
    assert Duration(o) == 30 by { RoundDivUnique(1800000, 60000, 30); }
    SingleTimedOrder(o);
  }
}

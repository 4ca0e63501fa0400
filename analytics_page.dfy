/**
 * The analytics page: summary figures and rank badges derived from the
 * `teamStats` list exactly as returned (list position is the rank).
 */
module AnalyticsPage {
  import opened Decimal
  import opened JsMath
  import opened Records
  import opened Analytics

  /** "Orders Completed": the sum of `completed_orders`. */
  function TotalOrders(stats: seq<TeamStat>): int {
    if stats == [] then 0 else TotalOrders(stats[..|stats| - 1]) + stats[|stats| - 1].completedOrders
  }

  function SumAverages(stats: seq<TeamStat>): int {
    if stats == [] then 0 else SumAverages(stats[..|stats| - 1]) + stats[|stats| - 1].avgProcessingMinutes
  }

  /** "Avg Processing Time": the rounded, unweighted mean of the members' averages; 0 for no members. */
  function AvgProcessingTime(stats: seq<TeamStat>): (avg: int)
    ensures |stats| == 0 ==> avg == 0
    ensures |stats| > 0 ==> 2 * |stats| * avg - |stats| <= 2 * SumAverages(stats) < 2 * |stats| * avg + |stats|
  {
    if |stats| > 0 then RoundDiv(SumAverages(stats), |stats|) else 0
  }

  /** "Active Team Members": the number of entries. */
  function ActiveTeamMembers(stats: seq<TeamStat>): nat {
    |stats|
  }

  /** The badge of list position `index`: gold, silver, bronze, then "#<index+1>". */
  function RankLabel(index: nat): string {
    if index == 0 then "\U{1F947}"
    else if index == 1 then "\U{1F948}"
    else if index == 2 then "\U{1F949}"
    else "#" + NatToString(index + 1)
  }

  /** Different positions get different badges. */
  lemma RankLabelsDistinct(i: nat, j: nat)
    ensures RankLabel(i) == RankLabel(j) <==> i == j
  {
    if i >= 3 && j >= 3 {
      var a, b := NatToString(i + 1), NatToString(j + 1);
      if RankLabel(i) == RankLabel(j) {
        assert a == RankLabel(i)[1..] && b == RankLabel(j)[1..];
        NatToStringInjective(i + 1, j + 1);
      }
    } else if i >= 3 || j >= 3 {
      var k := if i >= 3 then i else j;
      assert RankLabel(k)[0] == '#';
    }
  }

  /** "Top performer": the first entry as returned. */
  function TopPerformer(stats: seq<TeamStat>): TeamStat
    requires |stats| > 0
  {
    stats[0]
  }

  /** No sorting is done: the first entry can have fewer orders than a later one. */
  lemma TopPerformerNeedNotLead()
    ensures var stats := [TeamStat("Arun", 1, 20), TeamStat("Rahul", 5, 30)];
            TopPerformer(stats).completedOrders < stats[1].completedOrders && RankLabel(0) == "\U{1F947}"
  {
  }

  /** The top performer is the member of the earliest tagged windowed order, whatever the counts. */
  lemma TopPerformerIsFirstTagged(ws: seq<Order>, k: nat)
    requires k < |ws| && Truthy(ws[k].teamMember)
    requires forall l :: 0 <= l < k ==> !Truthy(ws[l].teamMember)
    ensures |TeamStats(ws)| > 0
    ensures TopPerformer(TeamStats(ws)) == StatOf(ws, ws[k].teamMember.value)
  {
    FirstMember(ws, k);
  }

  lemma {:induction false} TotalOrdersOfStats(ws: seq<Order>, names: seq<string>)
    ensures TotalOrders(seq(|names|, i requires 0 <= i < |names| => StatOf(ws, names[i]))) == SumCounts(ws, names)
  {
    var st := seq(|names|, i requires 0 <= i < |names| => StatOf(ws, names[i]));
    if names != [] {
      var init := names[..|names| - 1];
      TotalOrdersOfStats(ws, init);
      assert st[..|st| - 1] == seq(|init|, i requires 0 <= i < |init| => StatOf(ws, init[i]));
    }
  }

  /** The page's order total equals the number of windowed orders with a team member and both timestamps. */
  lemma TotalOrdersCountsTimedOrders(ws: seq<Order>)
    ensures TotalOrders(TeamStats(ws)) == CountTimedTagged(ws)
  {
    TotalOrdersOfStats(ws, Members(ws));
    CountsAddUp(ws);
  }

  /** Active Team Members counts distinct names, exactly those tagging some windowed order. */
  lemma ActiveMembersAreTaggedNames(ws: seq<Order>, name: string)
    ensures ActiveTeamMembers(TeamStats(ws)) == |Members(ws)|
    ensures forall i, j :: 0 <= i < j < |TeamStats(ws)| ==> TeamStats(ws)[i].name != TeamStats(ws)[j].name
    ensures (exists i :: 0 <= i < |TeamStats(ws)| && TeamStats(ws)[i].name == name) <==>
            (exists k :: 0 <= k < |ws| && TaggedBy(ws[k], name))
  {
    MembersDistinct(ws);
    MemberIffTagged(ws, name);
    assert forall i :: 0 <= i < |TeamStats(ws)| ==> TeamStats(ws)[i].name == Members(ws)[i];
  }

  lemma {:induction false} SumAveragesBetween(stats: seq<TeamStat>, lo: int, hi: int)
    requires forall k :: 0 <= k < |stats| ==> lo <= stats[k].avgProcessingMinutes <= hi
    ensures |stats| * lo <= SumAverages(stats) <= |stats| * hi
  {
    if stats != [] {
      SumAveragesBetween(stats[..|stats| - 1], lo, hi);
      assert |stats| * lo == (|stats| - 1) * lo + lo;
      assert |stats| * hi == (|stats| - 1) * hi + hi;
    }
  }

  /** The page average lies between the smallest and largest member average. */
  lemma AvgProcessingTimeBetween(stats: seq<TeamStat>, lo: int, hi: int)
    requires |stats| > 0
    requires forall k :: 0 <= k < |stats| ==> lo <= stats[k].avgProcessingMinutes <= hi
    ensures lo <= AvgProcessingTime(stats) <= hi
  {
    SumAveragesBetween(stats, lo, hi);
    RoundDivBetween(SumAverages(stats), |stats|, lo, hi);
  }
}

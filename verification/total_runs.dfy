/** src/total_runs_by_eac_team.py: the runs scored by each batting team. */
module TotalRuns {
  import opened Dicts
  import opened Records

  /** Reference sum: the `total_runs` of the deliveries batted by `team`. */
  function TeamRuns(data: seq<Delivery>, team: string): int {
    if |data| == 0 then 0
    else
      var x := data[|data| - 1];
      TeamRuns(data[..|data| - 1], team) + (if x.battingTeam == team then x.totalRuns else 0)
  }

  /** Reference sum: the `total_runs` of all deliveries. */
  function AllRuns(data: seq<Delivery>): int {
    if |data| == 0 then 0 else AllRuns(data[..|data| - 1]) + data[|data| - 1].totalRuns
  }

  /** One iteration of `calculate`'s loop: add the delivery's runs to its batting team, or start the team at them. */
  function AddDelivery(d: Dict<string, int>, x: Delivery): (d': Dict<string, int>)
    requires d.Valid()
    ensures d'.Valid()
  {
    if x.battingTeam in d.entries then d.Set(x.battingTeam, d.entries[x.battingTeam] + x.totalRuns)
    else d.Set(x.battingTeam, x.totalRuns)
  }

  /** `calculate` */
  function Calculate(data: seq<Delivery>): (d: Dict<string, int>)
    ensures d.Valid()
  {
    if |data| == 0 then Empty() else AddDelivery(Calculate(data[..|data| - 1]), data[|data| - 1])
  }

  /**
   * One iteration changes only the delivery's own team: its entry exists
   * afterwards and has grown by exactly the delivery's runs; every other
   * team keeps its presence and its total.
   */
  lemma AddDeliveryEffect(d: Dict<string, int>, x: Delivery)
    requires d.Valid()
    ensures x.battingTeam in AddDelivery(d, x).entries
    ensures AddDelivery(d, x).entries[x.battingTeam] == At(d.entries, x.battingTeam) + x.totalRuns
    ensures forall t :: t != x.battingTeam ==>
      (t in AddDelivery(d, x).entries <==> t in d.entries) && At(AddDelivery(d, x).entries, t) == At(d.entries, t)
    ensures Total(AddDelivery(d, x)) == Total(d) + x.totalRuns
  {
    TotalSet(d, x.battingTeam, At(d.entries, x.battingTeam) + x.totalRuns);
  }

  /** Appending a delivery to the input changes only its batting team's total, by exactly its runs. */
  lemma {:induction false} AppendDelivery(data: seq<Delivery>, x: Delivery)
    ensures var before := Calculate(data);
      var after := Calculate(data + [x]);
      && x.battingTeam in after.entries
      && after.entries[x.battingTeam] == At(before.entries, x.battingTeam) + x.totalRuns
      && forall t :: t != x.battingTeam ==> (t in after.entries <==> t in before.entries) && At(after.entries, t) == At(before.entries, t)
  {
    assert (data + [x])[..|data|] == data;
    AddDeliveryEffect(Calculate(data), x);
  }

  /** Each team's total is the sum of the runs of the deliveries it batted. */
  lemma {:induction false} CalculateRuns(data: seq<Delivery>)
    ensures forall t :: At(Calculate(data).entries, t) == TeamRuns(data, t)
  {
    if |data| > 0 {
      CalculateRuns(data[..|data| - 1]);
      AddDeliveryEffect(Calculate(data[..|data| - 1]), data[|data| - 1]);
    }
  }

  /** Whether `team` bats in some delivery of `data`. */
  ghost predicate Bats(data: seq<Delivery>, team: string) {
    exists i :: 0 <= i < |data| && data[i].battingTeam == team
  }

  lemma BatsLast(data: seq<Delivery>, team: string)
    requires |data| > 0
    ensures Bats(data, team) <==> Bats(data[..|data| - 1], team) || data[|data| - 1].battingTeam == team
  {
    var n := |data| - 1;
    if Bats(data[..n], team) {
      var i :| 0 <= i < n && data[..n][i].battingTeam == team;
      assert data[i] == data[..n][i];
    }
    if Bats(data, team) && data[n].battingTeam != team {
      var i :| 0 <= i < |data| && data[i].battingTeam == team;
      assert data[..n][i] == data[i];
    }
  }

  /** The keys are exactly the batting teams that occur in the input. */
  lemma {:induction false} CalculateKeys(data: seq<Delivery>)
    ensures forall t :: t in Calculate(data).entries <==> Bats(data, t)
  {
    if |data| > 0 {
      var n := |data| - 1;
      CalculateKeys(data[..n]);
      AddDeliveryEffect(Calculate(data[..n]), data[n]);
      forall t ensures t in Calculate(data).entries <==> Bats(data, t) {
        BatsLast(data, t);
      }
    }
  }

  /** The team totals add up to the runs of all deliveries. */
  lemma {:induction false} CalculateTotal(data: seq<Delivery>)
    ensures Total(Calculate(data)) == AllRuns(data)
  {
    if |data| > 0 {
      CalculateTotal(data[..|data| - 1]);
      AddDeliveryEffect(Calculate(data[..|data| - 1]), data[|data| - 1]);
    }
  }
}

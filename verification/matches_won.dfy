/**
 * src/matches_won-per_team_per_year.py: wins per team per season, as a
 * season -> team -> count dict, and the stacked-bar baseline of its chart.
 */
module MatchesWon {
  import opened Seqs
  import opened Dicts
  import opened Strings
  import opened Records

  type Wins = Dict<string, Dict<string, int>>

  /** Both the outer dict and every inner dict keep the dict invariant. */
  ghost predicate WellFormed(w: Wins) {
    w.Valid() && forall s :: s in w.entries ==> w.entries[s].Valid()
  }

  /** Reference count: records of season `s` won by `t`. */
  function WinCount(data: seq<Match>, s: string, t: string): nat {
    if |data| == 0 then 0
    else
      var m := data[|data| - 1];
      WinCount(data[..|data| - 1], s, t) + (if m.season == s && m.winner == t then 1 else 0)
  }

  /** Reference count: records of season `s` that have a winner. */
  function DecidedIn(data: seq<Match>, s: string): nat {
    if |data| == 0 then 0
    else
      var m := data[|data| - 1];
      DecidedIn(data[..|data| - 1], s) + (if m.season == s && m.winner != "" then 1 else 0)
  }

  /** Reference count: records that have a winner. */
  function Decided(data: seq<Match>): nat {
    if |data| == 0 then 0
    else Decided(data[..|data| - 1]) + (if data[|data| - 1].winner != "" then 1 else 0)
  }

  /** The records that have a winner, in their original order. */
  function DecidedMatches(data: seq<Match>): seq<Match> {
    if |data| == 0 then []
    else
      var rest := DecidedMatches(data[..|data| - 1]);
      if data[|data| - 1].winner == "" then rest else rest + [data[|data| - 1]]
  }

  /** One iteration of `calculate`'s loop: skip a record with no winner, otherwise add one win for (season, winner). */
  function AddResult(w: Wins, m: Match): (w': Wins)
    requires WellFormed(w)
    ensures WellFormed(w')
  {
    if m.winner == "" then w
    else
      var inner := w.Get(m.season, Empty());
      w.Set(m.season, inner.Set(m.winner, inner.Get(m.winner, 0) + 1))
  }

  /** `calculate` */
  function Calculate(data: seq<Match>): (w: Wins)
    ensures WellFormed(w)
  {
    if |data| == 0 then Empty() else AddResult(Calculate(data[..|data| - 1]), data[|data| - 1])
  }

  /** `matches_won[s].get(t, 0)`, and 0 for a missing season. */
  function WinsOf(w: Wins, s: string, t: string): int {
    if s in w.entries then At(w.entries[s].entries, t) else 0
  }

  /** One iteration adds exactly one win, to the record's (season, winner), unless the winner is empty. */
  lemma AddResultCounts(w: Wins, m: Match)
    requires WellFormed(w)
    ensures forall s, t ::
      WinsOf(AddResult(w, m), s, t) == WinsOf(w, s, t) + (if m.winner != "" && s == m.season && t == m.winner then 1 else 0)
    ensures forall s :: s in AddResult(w, m).entries <==> s in w.entries || (m.winner != "" && s == m.season)
    ensures forall s, t :: s in AddResult(w, m).entries && t in AddResult(w, m).entries[s].entries <==>
      (s in w.entries && t in w.entries[s].entries) || (m.winner != "" && s == m.season && t == m.winner)
  {
  }

  /** Every stored count is the reference count of its (season, winner). */
  lemma {:induction false} CalculateCounts(data: seq<Match>)
    ensures forall s, t :: t != "" ==> WinsOf(Calculate(data), s, t) == WinCount(data, s, t)
  {
    if |data| > 0 {
      CalculateCounts(data[..|data| - 1]);
      AddResultCounts(Calculate(data[..|data| - 1]), data[|data| - 1]);
    }
  }

  /** A season is a key iff it has a decided match; no team key is empty and every stored count is at least one. */
  lemma {:induction false} CalculateKeys(data: seq<Match>)
    ensures forall s :: s in Calculate(data).entries <==> DecidedIn(data, s) > 0
    ensures forall s, t :: s in Calculate(data).entries && t in Calculate(data).entries[s].entries ==>
      t != "" && Calculate(data).entries[s].entries[t] >= 1
  {
    if |data| > 0 {
      var w := Calculate(data[..|data| - 1]);
      CalculateKeys(data[..|data| - 1]);
      AddResultCounts(w, data[|data| - 1]);
      var w' := Calculate(data);
      forall s, t | s in w'.entries && t in w'.entries[s].entries ensures w'.entries[s].entries[t] >= 1 {
        assert WinsOf(w', s, t) >= WinsOf(w, s, t);
      }
    }
  }

  /** A record with an empty winner contributes nothing: dropping all of them changes nothing. */
  lemma {:induction false} AbandonedIgnored(data: seq<Match>)
    ensures Calculate(DecidedMatches(data)) == Calculate(data)
  {
    if |data| > 0 {
      var n := |data| - 1;
      AbandonedIgnored(data[..n]);
      if data[n].winner != "" {
        var ds := DecidedMatches(data[..n]) + [data[n]];
        assert ds[..|ds| - 1] == DecidedMatches(data[..n]);
      }
    }
  }

  /** The per-season sums as a dict with the same key order. */
  function SeasonTotals(w: Wins): (d: Dict<string, int>)
    requires WellFormed(w)
    ensures d.Valid() && d.keys == w.keys
    ensures forall s :: s in w.entries ==> s in d.entries && d.entries[s] == Total(w.entries[s])
  {
    Dict(w.keys, map s | s in w.entries :: Total(w.entries[s]))
  }

  /** One iteration on a decided match adds one to the sum of its season. */
  lemma {:induction false} AddResultTotals(w: Wins, m: Match)
    requires WellFormed(w) && m.winner != ""
    ensures SeasonTotals(AddResult(w, m)) == SeasonTotals(w).Set(m.season, At(SeasonTotals(w).entries, m.season) + 1)
  {
    var inner := w.Get(m.season, Empty());
    var inner' := inner.Set(m.winner, inner.Get(m.winner, 0) + 1);
    assert AddResult(w, m) == w.Set(m.season, inner');
    TotalSet(inner, m.winner, inner.Get(m.winner, 0) + 1);
    assert At(SeasonTotals(w).entries, m.season) == Total(inner) by {
      if m.season !in w.entries {
        assert inner == Empty();
      }
    }
    SetInnerWellFormed(w, m.season, inner');
    SeasonTotalsSet(w, m.season, inner');
    assert Total(inner') == At(SeasonTotals(w).entries, m.season) + 1;
  }

  lemma SetInnerWellFormed(w: Wins, s: string, inner: Dict<string, int>)
    requires WellFormed(w) && inner.Valid()
    ensures WellFormed(w.Set(s, inner))
  {
  }

  /** Replacing one season's inner dict replaces that season's sum and nothing else. */
  lemma {:induction false} SeasonTotalsSet(w: Wins, s: string, inner: Dict<string, int>)
    requires WellFormed(w) && inner.Valid() && WellFormed(w.Set(s, inner))
    ensures SeasonTotals(w.Set(s, inner)) == SeasonTotals(w).Set(s, Total(inner))
  {
    var lhs := SeasonTotals(w.Set(s, inner));
    var rhs := SeasonTotals(w).Set(s, Total(inner));
    assert lhs.entries.Keys == rhs.entries.Keys;
    forall k | k in lhs.entries ensures lhs.entries[k] == rhs.entries[k] {
      if k != s {
        assert w.Set(s, inner).entries[k] == w.entries[k];
      }
    }
  }

  /** Each season's inner counts add up to its number of decided matches. */
  lemma {:induction false} CalculateSeasonTotals(data: seq<Match>)
    ensures forall s :: At(SeasonTotals(Calculate(data)).entries, s) == DecidedIn(data, s)
  {
    if |data| > 0 {
      CalculateSeasonTotals(data[..|data| - 1]);
      if data[|data| - 1].winner != "" {
        AddResultTotals(Calculate(data[..|data| - 1]), data[|data| - 1]);
      }
    }
  }

  /** All inner counts together add up to the number of decided matches. */
  lemma {:induction false} CalculateTotal(data: seq<Match>)
    ensures Total(SeasonTotals(Calculate(data))) == Decided(data)
  {
    if |data| > 0 {
      var w := Calculate(data[..|data| - 1]);
      var m := data[|data| - 1];
      CalculateTotal(data[..|data| - 1]);
      if m.winner != "" {
        AddResultTotals(w, m);
        TotalSet(SeasonTotals(w), m.season, At(SeasonTotals(w).entries, m.season) + 1);
      }
    }
  }

  /** The inner keys of the given seasons, concatenated (may repeat). */
  function TeamsIn(w: Wins, ss: seq<string>): (ts: seq<string>)
    requires forall s :: s in ss ==> s in w.entries
    ensures forall t :: t in ts <==> exists s :: s in ss && t in w.entries[s].keys
  {
    if |ss| == 0 then []
    else TeamsIn(w, ss[..|ss| - 1]) + w.entries[ss[|ss| - 1]].keys
  }

  /** `team_wins[team]`: the team's wins in each season, 0 where it won none. */
  function TeamWins(w: Wins, seasons: seq<string>, team: string): (ws: seq<int>)
    requires forall i :: 0 <= i < |seasons| ==> seasons[i] in w.entries
    ensures |ws| == |seasons|
  {
    seq(|seasons|, i requires 0 <= i < |seasons| => w.entries[seasons[i]].Get(team, 0))
  }

  /** The stacking loop: `bottom` after adding the segments of `teams` one by one. */
  function Stack(w: Wins, seasons: seq<string>, teams: seq<string>): (bottom: seq<int>)
    requires forall i :: 0 <= i < |seasons| ==> seasons[i] in w.entries
    ensures |bottom| == |seasons|
    ensures forall i :: 0 <= i < |seasons| ==> bottom[i] == SumAt(teams, w.entries[seasons[i]].entries)
  {
    if |teams| == 0 then seq(|seasons|, i => 0)
    else
      var b := Stack(w, seasons, teams[..|teams| - 1]);
      var tw := TeamWins(w, seasons, teams[|teams| - 1]);
      seq(|seasons|, i requires 0 <= i < |seasons| => b[i] + tw[i])
  }

  /** What `plot` computes before drawing: the sorted axes and the final baseline. */
  datatype Chart = Chart(seasons: seq<string>, teams: seq<string>, bottom: seq<int>)

  function Plot(w: Wins): (c: Chart)
    requires WellFormed(w)
    ensures Ascending(c.seasons) && multiset(c.seasons) == multiset(w.keys)
    ensures Ascending(c.teams)
    ensures forall t :: t in c.teams <==> exists s :: s in w.entries && t in w.entries[s].entries
    ensures |c.bottom| == |c.seasons|
    ensures forall i :: 0 <= i < |c.seasons| ==> c.seasons[i] in w.entries && c.bottom[i] == Total(w.entries[c.seasons[i]])
  {
    var seasons := SortedSet(w.keys);
    var teams := SortedSet(TeamsIn(w, w.keys));
    var bottom := Stack(w, seasons, teams);
    AscendingNoDup(teams);
    assert forall i :: 0 <= i < |seasons| ==> SumAt(teams, w.entries[seasons[i]].entries) == Total(w.entries[seasons[i]]) by {
      forall i | 0 <= i < |seasons| ensures SumAt(teams, w.entries[seasons[i]].entries) == Total(w.entries[seasons[i]]) {
        var inner := w.entries[seasons[i]];
        SumAtCover(teams, inner.keys, inner.entries);
      }
    }
    Chart(seasons, teams, bottom)
  }

  /** End to end: each season's stacked bar is as tall as its number of decided matches. */
  lemma {:induction false} PlottedTotals(data: seq<Match>)
    ensures var c := Plot(Calculate(data));
      forall i :: 0 <= i < |c.seasons| ==> c.bottom[i] == DecidedIn(data, c.seasons[i]) >= 1
  {
    var w := Calculate(data);
    CalculateSeasonTotals(data);
    CalculateKeys(data);
    assert forall s :: s in w.entries ==> Total(w.entries[s]) == At(SeasonTotals(w).entries, s);
  }
}

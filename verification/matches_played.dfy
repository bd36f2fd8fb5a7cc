/** src/matches_played_per_year.py: the number of matches played in each season. */
module MatchesPlayed {
  import opened Seqs
  import opened Dicts
  import opened Strings
  import opened Records

  /** Reference count: how many records belong to season `s`. */
  function SeasonCount(data: seq<Match>, s: string): nat {
    if |data| == 0 then 0
    else SeasonCount(data[..|data| - 1], s) + (if data[|data| - 1].season == s then 1 else 0)
  }

  /** One iteration of `calculate`'s loop: `d[season] = d.get(season, 0) + 1`. */
  function CountMatch(d: Dict<string, int>, m: Match): (d': Dict<string, int>)
    requires d.Valid()
    ensures d'.Valid()
  {
    d.Set(m.season, d.Get(m.season, 0) + 1)
  }

  /** `calculate` */
  function Calculate(data: seq<Match>): (d: Dict<string, int>)
    ensures d.Valid()
  {
    if |data| == 0 then Empty() else CountMatch(Calculate(data[..|data| - 1]), data[|data| - 1])
  }

  /** One iteration adds one to the record's season, creating its key if needed, and changes nothing else. */
  lemma CountMatchEffect(d: Dict<string, int>, m: Match)
    requires d.Valid()
    ensures forall s :: At(CountMatch(d, m).entries, s) == At(d.entries, s) + (if s == m.season then 1 else 0)
    ensures forall s :: s in CountMatch(d, m).entries <==> s in d.entries || s == m.season
  {
  }

  /** Each season's count is the number of its records. */
  lemma {:induction false} CalculateCounts(data: seq<Match>)
    ensures forall s :: At(Calculate(data).entries, s) == SeasonCount(data, s)
  {
    if |data| > 0 {
      CalculateCounts(data[..|data| - 1]);
      CountMatchEffect(Calculate(data[..|data| - 1]), data[|data| - 1]);
    }
  }

  /** A season is a key iff some record has it, and then its count is at least one. */
  lemma {:induction false} CalculateKeys(data: seq<Match>)
    ensures forall s :: s in Calculate(data).entries <==> exists i :: 0 <= i < |data| && data[i].season == s
    ensures forall s :: s in Calculate(data).entries ==> Calculate(data).entries[s] >= 1
  {
    if |data| > 0 {
      var n := |data| - 1;
      CalculateKeys(data[..n]);
      CountMatchEffect(Calculate(data[..n]), data[n]);
      forall s ensures s in Calculate(data).entries <==> exists i :: 0 <= i < |data| && data[i].season == s {
        if s in Calculate(data[..n]).entries {
          var i :| 0 <= i < n && data[..n][i].season == s;
          assert data[i].season == s;
        }
        if exists i :: 0 <= i < |data| && data[i].season == s {
          var i :| 0 <= i < |data| && data[i].season == s;
          if i < n {
            assert data[..n][i].season == s;
          }
        }
      }
    }
  }

  /** The counts add up to the number of records. */
  lemma {:induction false} CalculateTotal(data: seq<Match>)
    ensures Total(Calculate(data)) == |data|
  {
    if |data| > 0 {
      var n := |data| - 1;
      CalculateTotal(data[..n]);
      var d := Calculate(data[..n]);
      TotalSet(d, data[n].season, d.Get(data[n].season, 0) + 1);
    }
  }

  /** The bar chart's series: `years = sorted(d.keys())`, `matches = [d[y] for y in years]`. */
  datatype Series = Series(years: seq<string>, matches: seq<int>)

  function PlotSeries(d: Dict<string, int>): (r: Series)
    requires d.Valid()
    ensures Ascending(r.years)
    ensures multiset(r.years) == multiset(d.keys)
    ensures |r.matches| == |r.years|
    ensures forall i :: 0 <= i < |r.years| ==> r.years[i] in d.entries && r.matches[i] == d.entries[r.years[i]]
  {
    var years := SortedSet(d.keys);
    Series(years, seq(|years|, i requires 0 <= i < |years| => d.entries[years[i]]))
  }

  /** End to end: the plotted bar for each season is the number of its records. */
  lemma {:induction false} PlottedCounts(data: seq<Match>)
    ensures var r := PlotSeries(Calculate(data));
      forall i :: 0 <= i < |r.years| ==> r.matches[i] == SeasonCount(data, r.years[i]) >= 1
  {
    CalculateCounts(data);
    CalculateKeys(data);
  }
}

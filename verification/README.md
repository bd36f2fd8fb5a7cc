# IPL aggregation scripts, modelled in Dafny

The repository is a set of small analysis scripts over the IPL `matches.csv`
and `deliveries.csv` tables. Each script reads rows, folds them into a
dictionary and draws a bar chart. This project models the folds and the
arithmetic that feeds the charts, and proves what they compute:

- wins per team per season, which skips abandoned matches (empty winner), and
  the stacked-bar baseline of its chart (`MatchesWon`);
- matches played per season and the sorted season axis (`MatchesPlayed`);
- runs scored per batting team (`TotalRuns`);
- the ten most economical bowlers of the 2015 season (`Economy`). This covers
  the match-id filter, the parallel run and ball totals, the economy
  runs·6/balls, and the stable ascending sort cut to ten;
- foreign umpires per country over the table written into the script, leaving
  out India case-insensitively (`ForeignUmpires`).

Supporting modules:

- `Records` holds the already-parsed rows.
- `Dicts` is an insertion-ordered Python `dict`: distinct `keys` in insertion
  order plus an `entries` map. It also provides `get`, `d[k] = v`, `items()`
  and `dict(pairs)`, and sums of values.
- `Strings` gives Python's lexicographic `str` order and `sorted(set(xs))`.
- `Seqs` defines the "no duplicates" and prefix predicates and small multiset facts.

Every loop is a recursive function over the prefix of its input. Each loop
body is a named step function, such as `CountMatch`, `AddResult`,
`AddDelivery`, `AddBall` and `AddUmpire`. Each step has an effect lemma, and
each fold is compared with an independent reference count or sum, such as
`SeasonCount`, `WinCount`, `TeamRuns`, `BallsBy` and `CountryCount`.

## Model

| member | source | states |
|---|---|---|
| Dicts.Set | src/top_economic_ballers.py:58-60 | `d[k] = v` maps `k` to `v` and leaves every other key's value alone; an existing key keeps its position and a new key is appended at the end, so the keys stay distinct |
| Dicts.FromItems | src/top_economic_ballers.py:69 | `dict(pairs)` is a valid dict with no more keys than there are pairs; its contents are stated by `Dicts.FromItemsContents` and `Dicts.FromItemsRoundTrip` |
| Dicts.FromItemsContents | src/top_economic_ballers.py:69 | `dict(pairs)` over distinct keys keeps the keys in pair order and maps each key to its pair's value |
| Dicts.FromItemsRoundTrip | src/top_economic_ballers.py:69 | `list(dict(pairs).items()) == pairs` when the keys are distinct |
| Strings.SortedSet | src/matches_played_per_year.py:62 | `sorted` of a key list is strictly increasing in Python string order; it holds exactly the input's elements, and the same multiset when they are distinct |
| MatchesPlayed.CountMatch | src/matches_played_per_year.py:48 | the loop body `matches_per_year[season] = get(season, 0) + 1` keeps the dict valid; its effect is `MatchesPlayed.CountMatchEffect` |
| MatchesPlayed.Calculate | src/matches_played_per_year.py:32-50 | the whole loop from `{}` yields a valid dict; what it counts is proved in `MatchesPlayed.CalculateCounts`, `MatchesPlayed.CalculateKeys` and `MatchesPlayed.CalculateTotal` |
| MatchesPlayed.CountMatchEffect | src/matches_played_per_year.py:46-48 | one iteration adds one to the record's season, creating the key if absent, and leaves every other season unchanged |
| MatchesPlayed.CalculateCounts | src/matches_played_per_year.py:45-48 | the count of every season equals the number of records of that season |
| MatchesPlayed.CalculateKeys | src/matches_played_per_year.py:46-48 | a season is a key iff some record has it, and every value is at least one |
| MatchesPlayed.CalculateTotal | src/matches_played_per_year.py:45-48 | the counts add up to the number of records |
| MatchesPlayed.PlotSeries | src/matches_played_per_year.py:62-63 | `years` is a strictly increasing permutation of the keys and `matches[i]` is the count of `years[i]` |
| MatchesPlayed.PlottedCounts | src/matches_played_per_year.py:45-63 | each plotted bar is the number of records of its season, which is at least one |
| MatchesWon.AddResult | src/matches_won-per_team_per_year.py:50-62 | the loop body (skip an empty winner, create the season and team entries, add one) keeps the outer dict and every inner dict valid; its effect is `MatchesWon.AddResultCounts` |
| MatchesWon.Calculate | src/matches_won-per_team_per_year.py:32-64 | the whole loop from `{}` yields well-formed nested dicts; what it counts is proved in `MatchesWon.CalculateCounts`, `MatchesWon.CalculateKeys`, `MatchesWon.CalculateSeasonTotals` and `MatchesWon.CalculateTotal` |
| MatchesWon.AddResultCounts | src/matches_won-per_team_per_year.py:50-62 | one iteration adds exactly one win, to the record's (season, winner), and adds only that key pair; a record with an empty winner changes nothing |
| MatchesWon.CalculateCounts | src/matches_won-per_team_per_year.py:46-62 | `matches_won[s].get(t, 0)` equals the number of records with season `s` and winner `t`, for every non-empty `t` |
| MatchesWon.CalculateKeys | src/matches_won-per_team_per_year.py:51-62 | a season is a key iff it has a record with a non-empty winner; no team key is the empty string; every stored count is at least one |
| MatchesWon.AbandonedIgnored | src/matches_won-per_team_per_year.py:50-52 | dropping every record with an empty winner leaves the result identical |
| MatchesWon.AddResultTotals | src/matches_won-per_team_per_year.py:55-62 | one iteration on a decided match raises its season's sum of inner counts by one and no other season's |
| MatchesWon.CalculateSeasonTotals | src/matches_won-per_team_per_year.py:46-62 | each season's inner counts add up to the number of decided matches of that season |
| MatchesWon.CalculateTotal | src/matches_won-per_team_per_year.py:46-62 | all inner counts together add up to the number of records with a non-empty winner |
| MatchesWon.TeamsIn | src/matches_won-per_team_per_year.py:78 | the gathered team names are exactly the inner keys of the given seasons |
| MatchesWon.TeamWins | src/matches_won-per_team_per_year.py:81 | `team_wins[team]`, the comprehension at line 81, has one entry per season; `MatchesWon.Stack` states what the rows sum to |
| MatchesWon.Stack | src/matches_won-per_team_per_year.py:81-90 | after stacking the teams' `team_wins` rows, `bottom[i]` is the sum over those teams of their wins in `seasons[i]`, absent teams counting zero |
| MatchesWon.Plot | src/matches_won-per_team_per_year.py:75-90 | `seasons` is a strictly increasing permutation of the keys; `teams` is strictly increasing and is the union of the inner keys; the final `bottom[i]` is the total of wins in `seasons[i]` |
| MatchesWon.PlottedTotals | src/matches_won-per_team_per_year.py:46-90 | each stacked bar is as tall as the number of decided matches of its season, which is at least one |
| TotalRuns.AddDelivery | src/total_runs_by_eac_team.py:52-55 | the loop body (`+=` for a known team, else assign) keeps the dict valid; its effect is `TotalRuns.AddDeliveryEffect` |
| TotalRuns.Calculate | src/total_runs_by_eac_team.py:34-57 | the whole loop from `{}` yields a valid dict; its totals and keys are proved in `TotalRuns.CalculateRuns`, `TotalRuns.CalculateKeys` and `TotalRuns.CalculateTotal` |
| TotalRuns.AddDeliveryEffect | src/total_runs_by_eac_team.py:52-55 | one iteration makes the batting team a key, raises its total by exactly the delivery's runs, and leaves every other team's presence and total unchanged |
| TotalRuns.AppendDelivery | src/total_runs_by_eac_team.py:47-55 | appending one delivery to the input changes only its batting team's entry, by exactly its runs |
| TotalRuns.CalculateRuns | src/total_runs_by_eac_team.py:47-55 | each team's total is the sum of `total_runs` over the deliveries it batted |
| TotalRuns.CalculateKeys | src/total_runs_by_eac_team.py:48-55 | the keys are exactly the batting teams that occur in the input |
| TotalRuns.CalculateTotal | src/total_runs_by_eac_team.py:47-55 | the team totals add up to the runs of all deliveries |
| Economy.MatchIds | src/top_economic_ballers.py:45 | an id is selected iff some match of season "2015" has it |
| Economy.AddBall | src/top_economic_ballers.py:53-60 | the loop body keeps `bowler_runs` and `bowler_balls` valid with the same keys in the same order; its effect is `Economy.AddBallEffect` |
| Economy.Tally | src/top_economic_ballers.py:52-60 | the whole delivery loop keeps the two dicts valid and keyed alike; their contents are proved in `Economy.TallyTotals` and their key order in `Economy.TallyKeyOrder` |
| Economy.AddBallEffect | src/top_economic_ballers.py:53-60 | a selected delivery adds one ball and its runs to its bowler only; any other delivery changes nothing |
| Economy.TallyTotals | src/top_economic_ballers.py:52-60 | each bowler's ball total is the number of selected deliveries they bowled and their run total is those deliveries' runs; a bowler is a key iff they bowled one |
| Economy.TallyIgnoresOthers | src/top_economic_ballers.py:45-60 | deliveries outside the 2015 matches are ignored entirely: tallying only the selected ones gives the same dicts |
| Economy.TallyBallsPositive | src/top_economic_ballers.py:58-66 | every bowler in the runs dict has at least one ball, so the zero-overs fallback is never taken |
| Economy.BallsByWitness | src/top_economic_ballers.py:53-60 | a bowler's count of selected balls is positive iff some delivery of a 2015 match was bowled by them |
| Economy.TallyKeyOrder | src/top_economic_ballers.py:52-60 | the bowlers are keyed in the order of their first delivery in a 2015 match: wherever a later key bowls such a delivery, every earlier key has bowled one before it |
| Economy.Rate | src/top_economic_ballers.py:65-66 | with balls > 0 the rate is runs·6/balls; otherwise it is zero |
| Economy.EconomyOf | src/top_economic_ballers.py:63-66 | the economy dict has exactly the runs dict's keys, in the same order |
| Economy.AllEconomies | src/top_economic_ballers.py:63-66 | the economy dict is valid and its keys are `bowler_runs`' keys in their order |
| Economy.EconomyIsRunsPerOver | src/top_economic_ballers.py:52-66 | every bowler's economy is six times their selected runs over their selected balls, of which there is at least one |
| Economy.InsertStable | src/top_economic_ballers.py:69 | one insertion step of the sort adds exactly the new entry |
| Economy.StableSort | src/top_economic_ballers.py:69 | the sort returns a permutation of its input |
| Economy.InsertStableSorted | src/top_economic_ballers.py:69 | inserting into a sorted sequence keeps it sorted by economy |
| Economy.InsertStableWithRate | src/top_economic_ballers.py:69 | an inserted entry goes behind every entry of equal economy; the entries of other economies keep their order |
| Economy.StableSortSorted | src/top_economic_ballers.py:69 | the sort's result is in non-decreasing order of economy |
| Economy.StableSortStable | src/top_economic_ballers.py:69 | for every economy value, the entries with that value come out in their input order |
| Economy.TopTen | src/top_economic_ballers.py:69 | `sorted(...)[:10]` keeps `min(10, n)` entries, forming a sub-multiset of the input; the rest of its meaning is `Economy.TopTenSpec` |
| Economy.TopTenSpec | src/top_economic_ballers.py:69 | `min(10, n)` entries, all from the input, in non-decreasing order; no entry left out is cheaper than one kept; among equal economies the kept ones are the first in insertion order |
| Economy.TopTenDict | src/top_economic_ballers.py:69 | `dict(sorted(...)[:10])` is a valid dict of at most ten bowlers; its contents are `Economy.TopTenDictSpec` and `Economy.TopTenDictCheapest` |
| Economy.TopTenDictSpec | src/top_economic_ballers.py:69 | the returned dict's items are exactly the top ten pairs in sorted order; it has at most ten keys, each mapped to its economy from the full dict |
| Economy.TopTenDictCheapest | src/top_economic_ballers.py:69 | no bowler of the full economy dict who is left out of the top ten has a lower economy than one kept |
| Economy.CalculateEconomicalBowlers | src/top_economic_ballers.py:33-70 | the function returns a valid dict of at most ten bowlers; its meaning end to end is `Economy.CalculateSpec` |
| Economy.CalculateSpec | src/top_economic_ballers.py:33-70 | end to end: `min(10, n)` of the `n` bowlers of 2015 are returned, in non-decreasing order of economy, each with six times their 2015 runs over their 2015 balls, of which there is at least one; no 2015 bowler left out is cheaper than one kept; among equal economies the kept bowlers come first in key order, i.e. first-delivery order |
| ForeignUmpires.IsIndia | src/foreign_umpires.py:32 | `country.lower() == "india"` holds iff the country has five characters, each the letter of "india" in either case |
| ForeignUmpires.AddUmpire | src/foreign_umpires.py:31-34 | the loop body (skip India, else `counts[country] = get(country, 0) + 1`) keeps the dict valid; its effect is `ForeignUmpires.AddUmpireEffect` |
| ForeignUmpires.CountByCountry | src/foreign_umpires.py:30-34 | the whole loop from `{}` yields a valid dict; its counts are proved in `ForeignUmpires.CountByCountryCounts` and `ForeignUmpires.CountByCountryTotal`, and on the script's table in `ForeignUmpires.TableCounts` |
| ForeignUmpires.AddUmpireEffect | src/foreign_umpires.py:31-34 | one iteration adds one to a non-India country, creating it if absent; an India entry changes nothing; the sum grows accordingly |
| ForeignUmpires.CountByCountryCounts | src/foreign_umpires.py:30-34 | no key lower-cases to "india"; every other country's count is its number of table entries, and it is a key iff that number is positive |
| ForeignUmpires.CountByCountryTotal | src/foreign_umpires.py:30-34 | the counts add up to the number of entries whose country is not India |
| ForeignUmpires.TableCounts | src/foreign_umpires.py:11-34 | on the script's table the counts are Pakistan 2, New Zealand 3, Australia 4, England 4, South Africa 1, Sri Lanka 1, in that insertion order, so `items()` is exactly those six pairs |

## Left out

- Reading the CSV files (`read_data` in every script) is left out. Inputs are already-parsed sequences of `Records.Match` and `Records.Delivery`, holding only the columns the folds read.
- Converting `total_runs` with `int(...)` is left out. The field is already an integer, so sign and whitespace handling, and failure on a non-numeric value, are not modelled.
- A missing column, which fails with a key-lookup error in the scripts, is left out. The record types always carry their fields.
- All matplotlib drawing, titles, labels, `savefig` and `show` are left out, as is `execute()` with its file paths. These are side effects. Only the `team_wins`/`bottom` arithmetic and the sorted axes feeding the charts are kept.
- The list of keys and values passed to the chart in the total-runs script's `plot` is left out. It is an unmodified read-out of the dict, i.e. `Items()`.
- Economy.Rate: computes over exact reals, not IEEE doubles, so rounding in `/` and float comparison in the sort are not modelled. Its zero fallback returns the real 0, where the script returns the integer `0`. That branch is proved unreachable by `Economy.TallyBallsPositive`.
- Economy.StableSort: is an insertion sort, not Python's Timsort. Only the sort's contract is modelled: a stable, non-decreasing permutation. A stable sorted permutation is unique, so the results agree, but that uniqueness is not proved here.
- ForeignUmpires.IsIndia: lower-cases ASCII letters only (`Lower`). Full Unicode `str.lower()` is not modelled.
- The other scripts in the repository are not part of this model: extra runs conceded per team, top RCB batsmen, and matches played per team per season.

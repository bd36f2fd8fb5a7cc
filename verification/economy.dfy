/**
 * src/top_economic_ballers.py: the ten most economical bowlers of the 2015
 * season. Deliveries of 2015 matches are tallied per bowler (runs conceded
 * and balls bowled), turned into runs per six balls, sorted ascending by a
 * stable sort and cut to the first ten.
 */
module Economy {
  import opened Seqs
  import opened Dicts
  import opened Records

  const Season: string := "2015"
  const TopN: nat := 10

  /** `match_ids_2015`: the ids of the matches of the season. */
  function MatchIds(matches: seq<Match>): (ids: set<string>)
    ensures forall id :: id in ids <==> exists i :: 0 <= i < |matches| && matches[i].season == Season && matches[i].id == id
  {
    set m | m in matches && m.season == Season :: m.id
  }

  /** `bowler_runs` and `bowler_balls`, filled side by side. */
  datatype Totals = Totals(runs: Dict<string, int>, balls: Dict<string, int>)

  /** Both dicts are valid and received their keys in the same order. */
  ghost predicate Consistent(t: Totals) {
    t.runs.Valid() && t.balls.Valid() && t.runs.keys == t.balls.keys
  }

  /** Whether a delivery belongs to one of the selected matches. */
  predicate InSelectedMatch(ids: set<string>, x: Delivery) {
    x.matchId in ids
  }

  /** One iteration of the delivery loop. */
  function AddBall(t: Totals, ids: set<string>, x: Delivery): (t': Totals)
    requires Consistent(t)
    ensures Consistent(t')
  {
    if InSelectedMatch(ids, x) then
      Totals(t.runs.Set(x.bowler, t.runs.Get(x.bowler, 0) + x.totalRuns),
             t.balls.Set(x.bowler, t.balls.Get(x.bowler, 0) + 1))
    else t
  }

  /** The delivery loop. */
  function Tally(ids: set<string>, ds: seq<Delivery>): (t: Totals)
    ensures Consistent(t)
  {
    if |ds| == 0 then Totals(Empty(), Empty())
    else AddBall(Tally(ids, ds[..|ds| - 1]), ids, ds[|ds| - 1])
  }

  /** Reference count: the selected deliveries bowled by `b`. */
  function BallsBy(ids: set<string>, ds: seq<Delivery>, b: string): nat {
    if |ds| == 0 then 0
    else
      var x := ds[|ds| - 1];
      BallsBy(ids, ds[..|ds| - 1], b) + (if InSelectedMatch(ids, x) && x.bowler == b then 1 else 0)
  }

  /** Reference sum: the runs of the selected deliveries bowled by `b`. */
  function RunsBy(ids: set<string>, ds: seq<Delivery>, b: string): int {
    if |ds| == 0 then 0
    else
      var x := ds[|ds| - 1];
      RunsBy(ids, ds[..|ds| - 1], b) + (if InSelectedMatch(ids, x) && x.bowler == b then x.totalRuns else 0)
  }

  /** The selected deliveries, in order. */
  function Selected(ids: set<string>, ds: seq<Delivery>): seq<Delivery> {
    if |ds| == 0 then []
    else
      var rest := Selected(ids, ds[..|ds| - 1]);
      if InSelectedMatch(ids, ds[|ds| - 1]) then rest + [ds[|ds| - 1]] else rest
  }

  /** One iteration adds one ball and the delivery's runs to its bowler, if the delivery is selected. */
  lemma AddBallEffect(t: Totals, ids: set<string>, x: Delivery)
    requires Consistent(t)
    ensures forall b ::
      At(AddBall(t, ids, x).balls.entries, b) == At(t.balls.entries, b) + (if InSelectedMatch(ids, x) && x.bowler == b then 1 else 0)
    ensures forall b ::
      At(AddBall(t, ids, x).runs.entries, b) == At(t.runs.entries, b) + (if InSelectedMatch(ids, x) && x.bowler == b then x.totalRuns else 0)
    ensures forall b :: b in AddBall(t, ids, x).runs.entries <==> b in t.runs.entries || (InSelectedMatch(ids, x) && x.bowler == b)
  {
  }

  /**
   * For each bowler the ball total is the number of selected deliveries and
   * the run total their runs; a bowler is a key iff they bowled a selected
   * delivery.
   */
  lemma {:induction false} TallyTotals(ids: set<string>, ds: seq<Delivery>)
    ensures forall b :: At(Tally(ids, ds).balls.entries, b) == BallsBy(ids, ds, b)
    ensures forall b :: At(Tally(ids, ds).runs.entries, b) == RunsBy(ids, ds, b)
    ensures forall b :: b in Tally(ids, ds).runs.entries <==> BallsBy(ids, ds, b) > 0
  {
    if |ds| > 0 {
      TallyTotals(ids, ds[..|ds| - 1]);
      AddBallEffect(Tally(ids, ds[..|ds| - 1]), ids, ds[|ds| - 1]);
    }
  }

  /** Deliveries of other matches are ignored entirely: tallying only the selected ones gives the same dicts. */
  lemma {:induction false} TallyIgnoresOthers(ids: set<string>, ds: seq<Delivery>)
    ensures Tally(ids, Selected(ids, ds)) == Tally(ids, ds)
  {
    if |ds| > 0 {
      var n := |ds| - 1;
      TallyIgnoresOthers(ids, ds[..n]);
      if InSelectedMatch(ids, ds[n]) {
        var sel := Selected(ids, ds[..n]) + [ds[n]];
        assert sel[..|sel| - 1] == Selected(ids, ds[..n]);
      }
    }
  }

  /** Every bowler with a run total has bowled at least one ball, so `overs > 0` always holds. */
  lemma {:induction false} TallyBallsPositive(ids: set<string>, ds: seq<Delivery>)
    ensures forall b :: b in Tally(ids, ds).runs.entries ==> b in Tally(ids, ds).balls.entries && Tally(ids, ds).balls.entries[b] >= 1
  {
    TallyTotals(ids, ds);
  }

  /** `bowler_runs[b] / (bowler_balls[b] / 6) if overs > 0 else 0`, over the reals. */
  function Rate(runs: int, balls: int): (e: real)
    ensures balls > 0 ==> e == (runs * 6) as real / balls as real
    ensures balls <= 0 ==> e == 0.0
  {
    var overs := balls as real / 6.0;
    if overs > 0.0 then runs as real / overs else 0.0
  }

  /** `economy`: one entry per key of `bowler_runs`, in the same order. */
  function EconomyOf(t: Totals): (e: Dict<string, real>)
    requires t.runs.Valid()
    requires forall b :: b in t.runs.entries ==> b in t.balls.entries
    ensures e.Valid() && e.keys == t.runs.keys
    ensures forall b :: b in e.entries <==> b in t.runs.entries
  {
    Dict(t.runs.keys, map b | b in t.runs.entries :: Rate(t.runs.entries[b], t.balls.entries[b]))
  }

  /** The economy of every bowler is six times their runs over their balls, and they bowled at least one ball. */
  lemma {:induction false} EconomyIsRunsPerOver(ids: set<string>, ds: seq<Delivery>)
    ensures var t := Tally(ids, ds);
      && (forall b :: b in t.runs.entries ==> b in t.balls.entries)
      && var e := EconomyOf(t);
      forall b :: b in e.entries ==> BallsBy(ids, ds, b) >= 1 && e.entries[b] == (RunsBy(ids, ds, b) * 6) as real / BallsBy(ids, ds, b) as real
  {
    TallyTotals(ids, ds);
    TallyBallsPositive(ids, ds);
  }

  /** A (bowler, economy) pair. */
  type Entry = (string, real)

  ghost predicate SortedByRate(s: seq<Entry>) {
    forall i, j :: 0 <= i < j < |s| ==> s[i].1 <= s[j].1
  }

  /** The entries with economy `v`, in order. */
  function WithRate(s: seq<Entry>, v: real): seq<Entry> {
    if |s| == 0 then []
    else WithRate(s[..|s| - 1], v) + (if s[|s| - 1].1 == v then [s[|s| - 1]] else [])
  }

  /** Insert `x` behind every entry whose economy is not above its own. */
  function InsertStable(s: seq<Entry>, x: Entry): (r: seq<Entry>)
    ensures |r| == |s| + 1
    ensures multiset(r) == multiset(s) + multiset{x}
  {
    if |s| == 0 || s[|s| - 1].1 <= x.1 then s + [x]
    else
      var n := |s| - 1;
      assert s == s[..n] + [s[n]];
      InsertStable(s[..n], x) + [s[n]]
  }

  /** `sorted(items, key=lambda x: x[1])`: Python's sort is stable. */
  function StableSort(xs: seq<Entry>): (r: seq<Entry>)
    ensures |r| == |xs| && multiset(r) == multiset(xs)
  {
    if |xs| == 0 then []
    else
      var n := |xs| - 1;
      assert xs == xs[..n] + [xs[n]];
      InsertStable(StableSort(xs[..n]), xs[n])
  }

  /** Inserting into a sorted sequence keeps it sorted. */
  lemma {:induction false} InsertStableSorted(s: seq<Entry>, x: Entry)
    requires SortedByRate(s)
    ensures SortedByRate(InsertStable(s, x))
  {
    if |s| > 0 && x.1 < s[|s| - 1].1 {
      var n := |s| - 1;
      InsertStableSorted(s[..n], x);
      var r := InsertStable(s[..n], x);
      forall y | y in r ensures y.1 <= s[n].1 {
        InSeqMultiset(y, r, s[..n] + [x]);
      }
    }
  }

  lemma WithRateSnoc(s: seq<Entry>, y: Entry, v: real)
    ensures WithRate(s + [y], v) == WithRate(s, v) + (if y.1 == v then [y] else [])
  {
    assert (s + [y])[..|s|] == s;
  }

  /** Appending `y` behind `x` or in front of it keeps the same entries per economy when they differ. */
  lemma {:induction false} WithRateSwap(a: seq<Entry>, r: seq<Entry>, y: Entry, x: Entry, v: real)
    requires x.1 < y.1
    requires WithRate(r, v) == WithRate(a, v) + (if x.1 == v then [x] else [])
    ensures WithRate(r + [y], v) == WithRate(a + [y], v) + (if x.1 == v then [x] else [])
  {
    WithRateSnoc(r, y, v);
    WithRateSnoc(a, y, v);
  }

  /** Inserting `x` appends it to the entries of its own economy and leaves the others in place. */
  lemma {:induction false} InsertStableWithRate(s: seq<Entry>, x: Entry, v: real)
    ensures WithRate(InsertStable(s, x), v) == WithRate(s, v) + (if x.1 == v then [x] else [])
  {
    if |s| == 0 || s[|s| - 1].1 <= x.1 {
      WithRateSnoc(s, x, v);
    } else {
      var n := |s| - 1;
      InsertStableWithRate(s[..n], x, v);
      WithRateSwap(s[..n], InsertStable(s[..n], x), s[n], x, v);
      assert s[..n] + [s[n]] == s;
    }
  }

  /** The sort's result is in non-decreasing order of economy. */
  lemma {:induction false} StableSortSorted(xs: seq<Entry>)
    ensures SortedByRate(StableSort(xs))
  {
    if |xs| > 0 {
      StableSortSorted(xs[..|xs| - 1]);
      InsertStableSorted(StableSort(xs[..|xs| - 1]), xs[|xs| - 1]);
    }
  }

  /** Stability: for every economy, its entries come out in their input order. */
  lemma {:induction false} StableSortStable(xs: seq<Entry>, v: real)
    ensures WithRate(StableSort(xs), v) == WithRate(xs, v)
  {
    if |xs| > 0 {
      StableSortStable(xs[..|xs| - 1], v);
      InsertStableWithRate(StableSort(xs[..|xs| - 1]), xs[|xs| - 1], v);
    }
  }

  /** `sorted(...)[:10]` */
  function TopTen(items: seq<Entry>): (r: seq<Entry>)
    ensures |r| == (if |items| < TopN then |items| else TopN)
    ensures multiset(r) <= multiset(items)
  {
    var s := StableSort(items);
    if |s| <= TopN then s
    else
      assert s == s[..TopN] + s[TopN..];
      s[..TopN]
  }

  /** The entries with a given economy in a prefix are a prefix of those in the whole. */
  lemma {:induction false} WithRatePrefix(s: seq<Entry>, k: nat, v: real)
    requires k <= |s|
    ensures IsPrefix(WithRate(s[..k], v), WithRate(s, v))
  {
    if k < |s| {
      var n := |s| - 1;
      assert s[..k] == s[..n][..k];
      WithRatePrefix(s[..n], k, v);
    } else {
      assert s[..k] == s;
    }
  }

  /**
   * The top ten: at most ten entries, all taken from the input, in
   * non-decreasing order of economy; no entry left out has a lower economy
   * than one kept; and among entries of equal economy the kept ones are the
   * first of them in input (insertion) order.
   */
  lemma {:induction false} TopTenSpec(items: seq<Entry>)
    ensures var r := TopTen(items);
      && |r| == (if |items| < TopN then |items| else TopN)
      && (forall i :: 0 <= i < |r| ==> r[i] in items)
      && SortedByRate(r)
      && (forall y, i :: y in items && y !in r && 0 <= i < |r| ==> r[i].1 <= y.1)
      && (forall v :: IsPrefix(WithRate(r, v), WithRate(items, v)))
  {
    var s := StableSort(items);
    var r := TopTen(items);
    StableSortSorted(items);
    assert r == s[..|r|];
    forall i | 0 <= i < |r| ensures r[i] in items {
      InSeqMultiset(r[i], s, items);
    }
    forall y, i | y in items && y !in r && 0 <= i < |r| ensures r[i].1 <= y.1 {
      InSeqMultiset(y, s, items);
      var j :| 0 <= j < |s| && s[j] == y;
    }
    forall v ensures IsPrefix(WithRate(r, v), WithRate(items, v)) {
      WithRatePrefix(s, |r|, v);
      StableSortStable(items, v);
    }
  }

  /** `dict(sorted(e.items(), key=...)[:10])` */
  function TopTenDict(e: Dict<string, real>): (top: Dict<string, real>)
    requires e.Valid()
    ensures top.Valid() && |top.keys| <= TopN
  {
    FromItems(TopTen(e.Items()))
  }

  /** The bowlers of the top ten are distinct, as those of the full dict are. */
  lemma TopTenKeys(e: Dict<string, real>)
    requires e.Valid()
    ensures NoDup(KeysOf(TopTen(e.Items())))
  {
    var items := e.Items();
    assert KeysOf(items) == e.keys;
    var s := StableSort(items);
    PermutationKeys(items, s);
    var r := TopTen(items);
    assert r == s[..|r|];
    assert KeysOf(r) == KeysOf(s)[..|r|];
    NoDupPrefix(KeysOf(s), |r|);
  }

  /**
   * The returned dict holds exactly the top ten (bowler, economy) pairs, in
   * sorted order, each with the bowler's economy from the full dict.
   */
  lemma {:induction false} TopTenDictSpec(e: Dict<string, real>)
    requires e.Valid()
    ensures TopTenDict(e).Items() == TopTen(e.Items())
    ensures |TopTenDict(e).keys| <= TopN
    ensures forall b :: b in TopTenDict(e).entries ==> b in e.entries && TopTenDict(e).entries[b] == e.entries[b]
  {
    var items := e.Items();
    var r := TopTen(items);
    TopTenKeys(e);
    FromItemsRoundTrip(r);
    var top := TopTenDict(e);
    forall b | b in top.entries ensures b in e.entries && top.entries[b] == e.entries[b] {
      var v := top.entries[b];
      ItemsHas(top, b, v);
      assert (b, v) in multiset(r);
      ItemsHas(e, b, v);
    }
  }

  /** The economy dict the top ten are chosen from. */
  function AllEconomies(matches: seq<Match>, deliveries: seq<Delivery>): (e: Dict<string, real>)
    ensures e.Valid() && e.keys == Tally(MatchIds(matches), deliveries).runs.keys
  {
    var t := Tally(MatchIds(matches), deliveries);
    TallyBallsPositive(MatchIds(matches), deliveries);
    EconomyOf(t)
  }

  /** `calculate_economical_bowlers_2015` */
  function CalculateEconomicalBowlers(matches: seq<Match>, deliveries: seq<Delivery>): (top: Dict<string, real>)
    ensures top.Valid() && |top.keys| <= TopN
  {
    TopTenDict(AllEconomies(matches, deliveries))
  }

  /** A bowler left out of the top ten is not cheaper than a bowler kept. */
  lemma TopTenDictCheaper(e: Dict<string, real>, b: string, c: string)
    requires e.Valid() && b in TopTenDict(e).entries && c in e.entries && c !in TopTenDict(e).entries
    ensures TopTenDict(e).entries[b] <= e.entries[c]
  {
    var top := TopTenDict(e);
    var items := e.Items();
    var r := top.Items();
    var y := (c, e.entries[c]);
    var x := (b, top.entries[b]);
    TopTenDictSpec(e);
    assert y in items by { ItemsHas(e, c, y.1); }
    assert y !in r by { ItemsHas(top, c, y.1); }
    assert x in r by { ItemsHas(top, b, x.1); }
    var i :| 0 <= i < |r| && r[i] == x;
    TopTenSpec(items);
    assert r[i].1 <= y.1;
  }

  /** No bowler of the full dict that is left out of the top ten is cheaper than one kept. */
  lemma TopTenDictCheapest(e: Dict<string, real>)
    requires e.Valid()
    ensures forall b, c :: b in TopTenDict(e).entries && c in e.entries && c !in TopTenDict(e).entries ==>
      TopTenDict(e).entries[b] <= e.entries[c]
  {
    forall b, c | b in TopTenDict(e).entries && c in e.entries && c !in TopTenDict(e).entries
      ensures TopTenDict(e).entries[b] <= e.entries[c]
    {
      TopTenDictCheaper(e, b, c);
    }
  }

  /**
   * End to end: ten bowlers come back, or all of the season's bowlers if
   * there are fewer, in non-decreasing order of economy, each with six
   * times the runs they conceded in the season's matches over the balls
   * they bowled there, of which there was at least one. No bowler of the season who is left out is cheaper than one kept,
   * and among bowlers of equal economy the kept ones come first in key
   * order, which `TallyKeyOrder` shows is the order of their first delivery.
   */
  lemma {:induction false} CalculateSpec(matches: seq<Match>, deliveries: seq<Delivery>)
    ensures var top := CalculateEconomicalBowlers(matches, deliveries);
      var ids := MatchIds(matches);
      var n := |AllEconomies(matches, deliveries).keys|;
      && |top.keys| == (if n < TopN then n else TopN)
      && SortedByRate(top.Items())
      && (forall b :: b in top.entries ==>
        BallsBy(ids, deliveries, b) >= 1 && top.entries[b] == (RunsBy(ids, deliveries, b) * 6) as real / BallsBy(ids, deliveries, b) as real)
      && (forall b, c :: b in top.entries && c !in top.entries && BallsBy(ids, deliveries, c) >= 1 ==>
        top.entries[b] <= (RunsBy(ids, deliveries, c) * 6) as real / BallsBy(ids, deliveries, c) as real)
      && (forall v :: IsPrefix(WithRate(top.Items(), v), WithRate(AllEconomies(matches, deliveries).Items(), v)))
  {
    var ids := MatchIds(matches);
    var e := AllEconomies(matches, deliveries);
    TopTenDictSpec(e);
    TopTenSpec(e.Items());
    TopTenDictCheapest(e);
    EconomyIsRunsPerOver(ids, deliveries);
    TallyTotals(ids, deliveries);
  }

  /** Some selected delivery before position `q` was bowled by `b`. */
  ghost predicate BowledBefore(ids: set<string>, ds: seq<Delivery>, b: string, q: int) {
    exists p :: 0 <= p < q && p < |ds| && InSelectedMatch(ids, ds[p]) && ds[p].bowler == b
  }

  /** What was bowled before `q` in a prefix was bowled before `q` in the whole. */
  lemma BowledBeforeExtend(ids: set<string>, ds: seq<Delivery>, n: nat, b: string, q: int)
    requires n <= |ds| && BowledBefore(ids, ds[..n], b, q)
    ensures BowledBefore(ids, ds, b, q)
  {
    var p :| 0 <= p < q && p < n && InSelectedMatch(ids, ds[..n][p]) && ds[..n][p].bowler == b;
    assert ds[p] == ds[..n][p];
  }

  /** A bowler has a selected ball iff some selected delivery is theirs. */
  lemma {:induction false} BallsByWitness(ids: set<string>, ds: seq<Delivery>, b: string)
    ensures BallsBy(ids, ds, b) > 0 <==> BowledBefore(ids, ds, b, |ds|)
  {
    if |ds| > 0 {
      var n := |ds| - 1;
      var pre := ds[..n];
      BallsByWitness(ids, pre, b);
      if BallsBy(ids, pre, b) > 0 {
        BowledBeforeExtend(ids, ds, n, b, n);
      }
      if BowledBefore(ids, ds, b, |ds|) {
        var p :| 0 <= p < |ds| && InSelectedMatch(ids, ds[p]) && ds[p].bowler == b;
        if p < n {
          assert pre[p] == ds[p];
        }
      }
    }
  }

  /**
   * `ks` lists bowlers in the order of their first selected delivery:
   * wherever `ks[j]` bowls a selected delivery, every earlier one in `ks`
   * has already bowled one before it.
   */
  ghost predicate FirstBowledOrder(ids: set<string>, ds: seq<Delivery>, ks: seq<string>) {
    forall i, j, q :: 0 <= i < j < |ks| && 0 <= q < |ds| && InSelectedMatch(ids, ds[q]) && ds[q].bowler == ks[j] ==>
      BowledBefore(ids, ds, ks[i], q)
  }

  /** The bowlers are keyed in the order of their first selected delivery. */
  lemma {:induction false} TallyKeyOrder(ids: set<string>, ds: seq<Delivery>)
    ensures FirstBowledOrder(ids, ds, Tally(ids, ds).runs.keys)
  {
    if |ds| > 0 {
      var n := |ds| - 1;
      var pre := ds[..n];
      var t := Tally(ids, pre);
      var ks := Tally(ids, ds).runs.keys;
      TallyKeyOrder(ids, pre);
      TallyTotals(ids, pre);
      assert ks == t.runs.keys || (ks == t.runs.keys + [ds[n].bowler] && ds[n].bowler !in t.runs.entries);
      forall i, j, q | 0 <= i < j < |ks| && 0 <= q < |ds| && InSelectedMatch(ids, ds[q]) && ds[q].bowler == ks[j]
        ensures BowledBefore(ids, ds, ks[i], q)
      {
        assert ks[i] == t.runs.keys[i] && ks[i] in t.runs.entries;
        if q < n {
          assert pre[q] == ds[q];
          assert BowledBefore(ids, pre, ks[j], n);
          BallsByWitness(ids, pre, ks[j]);
          assert j < |t.runs.keys| && ks[j] == t.runs.keys[j];
        } else {
          BallsByWitness(ids, pre, ks[i]);
        }
        BowledBeforeExtend(ids, ds, n, ks[i], q);
      }
    }
  }
}

/**
 * src/foreign_umpires.py: the number of umpires per country in a literal
 * table, leaving out India.
 */
module ForeignUmpires {
  import opened Dicts

  datatype Umpire = Umpire(name: string, country: string)

  /** The table written into the script. */
  const Umpires: seq<Umpire> := [
    Umpire("Aleem Dar", "Pakistan"),
    Umpire("Asad Rauf", "Pakistan"),
    Umpire("Billy Bowden", "New Zealand"),
    Umpire("Bruce Oxenford", "Australia"),
    Umpire("Ian Gould", "England"),
    Umpire("Marais Erasmus", "South Africa"),
    Umpire("Nigel Llong", "England"),
    Umpire("Richard Illingworth", "England"),
    Umpire("Rod Tucker", "Australia"),
    Umpire("Kumar Dharmasena", "Sri Lanka"),
    Umpire("Simon Taufel", "Australia"),
    Umpire("Tonny Hill", "New Zealand"),
    Umpire("Steve Davis", "Australia"),
    Umpire("Jeff Crowe", "New Zealand"),
    Umpire("Richard kettleborough", "England")
  ]

  /** `str.lower()` on one character, ASCII letters only. */
  function LowerChar(c: char): char {
    if 'A' <= c <= 'Z' then (c as int + 32) as char else c
  }

  function Lower(s: string): (r: string)
    ensures |r| == |s|
  {
    seq(|s|, i requires 0 <= i < |s| => LowerChar(s[i]))
  }

  /** `country.lower() == "india"`: the five letters of "india", each in either case. */
  function IsIndia(country: string): (r: bool)
    ensures r <==> |country| == 5 && forall i :: 0 <= i < 5 ==> country[i] == "india"[i] || country[i] == "INDIA"[i]
  {
    Lower(country) == "india"
  }

  /** Spellings that do and do not count as India. */
  lemma IndiaSpellings()
    ensures IsIndia("India") && IsIndia("INDIA") && IsIndia("india") && IsIndia("iNdIa")
    ensures !IsIndia("Indian") && !IsIndia("Indi") && !IsIndia("") && !IsIndia("Pakistan")
  {
  }

  /** One iteration of the loop: skip India, otherwise `counts[country] = counts.get(country, 0) + 1`. */
  function AddUmpire(d: Dict<string, int>, u: Umpire): (d': Dict<string, int>)
    requires d.Valid()
    ensures d'.Valid()
  {
    if IsIndia(u.country) then d else d.Set(u.country, d.Get(u.country, 0) + 1)
  }

  /** The counting loop. */
  function CountByCountry(us: seq<Umpire>): (d: Dict<string, int>)
    ensures d.Valid()
  {
    if |us| == 0 then Empty() else AddUmpire(CountByCountry(us[..|us| - 1]), us[|us| - 1])
  }

  /** Reference count: the table entries from `country`. */
  function CountryCount(us: seq<Umpire>, country: string): nat {
    if |us| == 0 then 0
    else CountryCount(us[..|us| - 1], country) + (if us[|us| - 1].country == country then 1 else 0)
  }

  /** Reference count: the table entries not from India. */
  function ForeignCount(us: seq<Umpire>): nat {
    if |us| == 0 then 0
    else ForeignCount(us[..|us| - 1]) + (if IsIndia(us[|us| - 1].country) then 0 else 1)
  }

  lemma AddUmpireEffect(d: Dict<string, int>, u: Umpire)
    requires d.Valid()
    ensures forall c :: At(AddUmpire(d, u).entries, c) == At(d.entries, c) + (if !IsIndia(u.country) && c == u.country then 1 else 0)
    ensures forall c :: c in AddUmpire(d, u).entries <==> c in d.entries || (!IsIndia(u.country) && c == u.country)
    ensures Total(AddUmpire(d, u)) == Total(d) + (if IsIndia(u.country) then 0 else 1)
  {
    if !IsIndia(u.country) {
      var n := d.Get(u.country, 0) + 1;
      assert n == At(d.entries, u.country) + 1;
      assert AddUmpire(d, u).entries == d.entries[u.country := n];
      TotalSet(d, u.country, n);
    }
  }

  /**
   * No key lower-cases to "india"; every other country's count is its
   * number of table entries, and it is a key iff that number is positive.
   */
  lemma {:induction false} CountByCountryCounts(us: seq<Umpire>)
    ensures forall c :: c in CountByCountry(us).entries ==> !IsIndia(c)
    ensures forall c :: !IsIndia(c) ==> At(CountByCountry(us).entries, c) == CountryCount(us, c)
    ensures forall c :: !IsIndia(c) ==> (c in CountByCountry(us).entries <==> CountryCount(us, c) > 0)
  {
    if |us| > 0 {
      CountByCountryCounts(us[..|us| - 1]);
      AddUmpireEffect(CountByCountry(us[..|us| - 1]), us[|us| - 1]);
    }
  }

  /** The counts add up to the number of entries not from India. */
  lemma {:induction false} CountByCountryTotal(us: seq<Umpire>)
    ensures Total(CountByCountry(us)) == ForeignCount(us)
  {
    if |us| > 0 {
      CountByCountryTotal(us[..|us| - 1]);
      AddUmpireEffect(CountByCountry(us[..|us| - 1]), us[|us| - 1]);
    }
  }

  /** One more table entry is one more step of the loop. */
  lemma CountStep(us: seq<Umpire>, k: nat)
    requires 0 < k <= |us|
    ensures CountByCountry(us[..k]) == AddUmpire(CountByCountry(us[..k - 1]), us[k - 1])
  {
    assert us[..k][..k - 1] == us[..k - 1];
  }

  /** The entries of the table, one by one. */
  lemma TableEntriesEarly()
    ensures Umpires[0] == Umpire("Aleem Dar", "Pakistan")
    ensures Umpires[1] == Umpire("Asad Rauf", "Pakistan")
    ensures Umpires[2] == Umpire("Billy Bowden", "New Zealand")
    ensures Umpires[3] == Umpire("Bruce Oxenford", "Australia")
    ensures Umpires[4] == Umpire("Ian Gould", "England")
    ensures Umpires[5] == Umpire("Marais Erasmus", "South Africa")
    ensures Umpires[6] == Umpire("Nigel Llong", "England")
    ensures Umpires[7] == Umpire("Richard Illingworth", "England")
  {
  }

  lemma TableEntriesLate()
    ensures Umpires[8] == Umpire("Rod Tucker", "Australia")
    ensures Umpires[9] == Umpire("Kumar Dharmasena", "Sri Lanka")
    ensures Umpires[10] == Umpire("Simon Taufel", "Australia")
    ensures Umpires[11] == Umpire("Tonny Hill", "New Zealand")
    ensures Umpires[12] == Umpire("Steve Davis", "Australia")
    ensures Umpires[13] == Umpire("Jeff Crowe", "New Zealand")
    ensures Umpires[14] == Umpire("Richard kettleborough", "England")
  {
  }

  /** One step of the loop over the table, from known counts to known counts. */
  lemma TableStep(k: nat, u: Umpire)
    requires 0 < k <= |Umpires| && Umpires[k - 1] == u
    ensures CountByCountry(Umpires[..k]) == AddUmpire(CountByCountry(Umpires[..k - 1]), u)
  {
    CountStep(Umpires, k);
  }

  /** A country not yet counted is appended with count one. */
  lemma AddFresh(d: Dict<string, int>, u: Umpire)
    requires d.Valid() && !IsIndia(u.country) && u.country !in d.entries
    ensures AddUmpire(d, u).keys == d.keys + [u.country]
    ensures AddUmpire(d, u).entries == d.entries[u.country := 1]
  {
  }

  /** A country already counted keeps its place and its count grows by one. */
  lemma AddExisting(d: Dict<string, int>, u: Umpire)
    requires d.Valid() && !IsIndia(u.country) && u.country in d.entries
    ensures AddUmpire(d, u).keys == d.keys
    ensures AddUmpire(d, u).entries == d.entries[u.country := d.entries[u.country] + 1]
  {
  }

  /*
   * The table evaluated entry by entry: `AddK` is the K-th iteration of the
   * loop on the counts written out after K - 1 entries, and `TableAfterK`
   * chains the iterations so far.
   *
   * The chain is unrolled on purpose. Unfolding `CountByCountry` over all
   * fifteen entries in one proof, or evaluating `CountryCount` per country
   * on the literal table, exceeds the solver's resource limit; one step per
   * lemma keeps each proof to a single dict update on a known literal.
   */

  lemma TableAfter0()
    ensures CountByCountry(Umpires[..0]) == Dict([], map[])
  {
  }

  lemma Add1(d: Dict<string, int>)
    requires d.Valid() && d == Dict([], map[])
    ensures AddUmpire(d, Umpire("Aleem Dar", "Pakistan")).keys == ["Pakistan"]
    ensures AddUmpire(d, Umpire("Aleem Dar", "Pakistan")).entries == map["Pakistan" := 1]
  {
    AddFresh(d, Umpire("Aleem Dar", "Pakistan"));
  }

  lemma TableAfter1()
    ensures CountByCountry(Umpires[..1]) == Dict(["Pakistan"], map["Pakistan" := 1])
  {
    TableAfter0();
    TableEntriesEarly();
    TableStep(1, Umpire("Aleem Dar", "Pakistan"));
    Add1(CountByCountry(Umpires[..0]));
  }

  lemma Add2(d: Dict<string, int>)
    requires d.Valid() && d == Dict(["Pakistan"], map["Pakistan" := 1])
    ensures AddUmpire(d, Umpire("Asad Rauf", "Pakistan")).keys == ["Pakistan"]
    ensures AddUmpire(d, Umpire("Asad Rauf", "Pakistan")).entries == map["Pakistan" := 2]
  {
    AddExisting(d, Umpire("Asad Rauf", "Pakistan"));
  }

  lemma TableAfter2()
    ensures CountByCountry(Umpires[..2]) == Dict(["Pakistan"], map["Pakistan" := 2])
  {
    TableAfter1();
    TableEntriesEarly();
    TableStep(2, Umpire("Asad Rauf", "Pakistan"));
    Add2(CountByCountry(Umpires[..1]));
  }

  lemma Add3(d: Dict<string, int>)
    requires d.Valid() && d == Dict(["Pakistan"], map["Pakistan" := 2])
    ensures AddUmpire(d, Umpire("Billy Bowden", "New Zealand")).keys == ["Pakistan", "New Zealand"]
    ensures AddUmpire(d, Umpire("Billy Bowden", "New Zealand")).entries == map["Pakistan" := 2, "New Zealand" := 1]
  {
    AddFresh(d, Umpire("Billy Bowden", "New Zealand"));
  }

  lemma TableAfter3()
    ensures CountByCountry(Umpires[..3]) == Dict(["Pakistan", "New Zealand"], map["Pakistan" := 2, "New Zealand" := 1])
  {
    TableAfter2();
    TableEntriesEarly();
    TableStep(3, Umpire("Billy Bowden", "New Zealand"));
    Add3(CountByCountry(Umpires[..2]));
  }

  lemma Add4(d: Dict<string, int>)
    requires d.Valid() && d == Dict(["Pakistan", "New Zealand"], map["Pakistan" := 2, "New Zealand" := 1])
    ensures AddUmpire(d, Umpire("Bruce Oxenford", "Australia")).keys == ["Pakistan", "New Zealand", "Australia"]
    ensures AddUmpire(d, Umpire("Bruce Oxenford", "Australia")).entries == map["Pakistan" := 2, "New Zealand" := 1, "Australia" := 1]
  {
    AddFresh(d, Umpire("Bruce Oxenford", "Australia"));
  }

  lemma TableAfter4()
    ensures CountByCountry(Umpires[..4]) == Dict(["Pakistan", "New Zealand", "Australia"], map["Pakistan" := 2, "New Zealand" := 1, "Australia" := 1])
  {
    TableAfter3();
    TableEntriesEarly();
    TableStep(4, Umpire("Bruce Oxenford", "Australia"));
    Add4(CountByCountry(Umpires[..3]));
  }

  lemma Add5(d: Dict<string, int>)
    requires d.Valid() && d == Dict(["Pakistan", "New Zealand", "Australia"], map["Pakistan" := 2, "New Zealand" := 1, "Australia" := 1])
    ensures AddUmpire(d, Umpire("Ian Gould", "England")).keys == ["Pakistan", "New Zealand", "Australia", "England"]
    ensures AddUmpire(d, Umpire("Ian Gould", "England")).entries == map["Pakistan" := 2, "New Zealand" := 1, "Australia" := 1, "England" := 1]
  {
    AddFresh(d, Umpire("Ian Gould", "England"));
  }

  lemma TableAfter5()
    ensures CountByCountry(Umpires[..5]) == Dict(["Pakistan", "New Zealand", "Australia", "England"], map["Pakistan" := 2, "New Zealand" := 1, "Australia" := 1, "England" := 1])
  {
    TableAfter4();
    TableEntriesEarly();
    TableStep(5, Umpire("Ian Gould", "England"));
    Add5(CountByCountry(Umpires[..4]));
  }

  lemma Add6(d: Dict<string, int>)
    requires d.Valid() && d == Dict(["Pakistan", "New Zealand", "Australia", "England"], map["Pakistan" := 2, "New Zealand" := 1, "Australia" := 1, "England" := 1])
    ensures AddUmpire(d, Umpire("Marais Erasmus", "South Africa")).keys == ["Pakistan", "New Zealand", "Australia", "England", "South Africa"]
    ensures AddUmpire(d, Umpire("Marais Erasmus", "South Africa")).entries == map["Pakistan" := 2, "New Zealand" := 1, "Australia" := 1, "England" := 1, "South Africa" := 1]
  {
    AddFresh(d, Umpire("Marais Erasmus", "South Africa"));
  }

  lemma TableAfter6()
    ensures CountByCountry(Umpires[..6]) == Dict(["Pakistan", "New Zealand", "Australia", "England", "South Africa"], map["Pakistan" := 2, "New Zealand" := 1, "Australia" := 1, "England" := 1, "South Africa" := 1])
  {
    TableAfter5();
    TableEntriesEarly();
    TableStep(6, Umpire("Marais Erasmus", "South Africa"));
    Add6(CountByCountry(Umpires[..5]));
  }

  lemma Add7(d: Dict<string, int>)
    requires d.Valid() && d == Dict(["Pakistan", "New Zealand", "Australia", "England", "South Africa"], map["Pakistan" := 2, "New Zealand" := 1, "Australia" := 1, "England" := 1, "South Africa" := 1])
    ensures AddUmpire(d, Umpire("Nigel Llong", "England")).keys == ["Pakistan", "New Zealand", "Australia", "England", "South Africa"]
    ensures AddUmpire(d, Umpire("Nigel Llong", "England")).entries == map["Pakistan" := 2, "New Zealand" := 1, "Australia" := 1, "England" := 2, "South Africa" := 1]
  {
    AddExisting(d, Umpire("Nigel Llong", "England"));
  }

  lemma TableAfter7()
    ensures CountByCountry(Umpires[..7]) == Dict(["Pakistan", "New Zealand", "Australia", "England", "South Africa"], map["Pakistan" := 2, "New Zealand" := 1, "Australia" := 1, "England" := 2, "South Africa" := 1])
  {
    TableAfter6();
    TableEntriesEarly();
    TableStep(7, Umpire("Nigel Llong", "England"));
    Add7(CountByCountry(Umpires[..6]));
  }

  lemma Add8(d: Dict<string, int>)
    requires d.Valid() && d == Dict(["Pakistan", "New Zealand", "Australia", "England", "South Africa"], map["Pakistan" := 2, "New Zealand" := 1, "Australia" := 1, "England" := 2, "South Africa" := 1])
    ensures AddUmpire(d, Umpire("Richard Illingworth", "England")).keys == ["Pakistan", "New Zealand", "Australia", "England", "South Africa"]
    ensures AddUmpire(d, Umpire("Richard Illingworth", "England")).entries == map["Pakistan" := 2, "New Zealand" := 1, "Australia" := 1, "England" := 3, "South Africa" := 1]
  {
    AddExisting(d, Umpire("Richard Illingworth", "England"));
  }

  lemma TableAfter8()
    ensures CountByCountry(Umpires[..8]) == Dict(["Pakistan", "New Zealand", "Australia", "England", "South Africa"], map["Pakistan" := 2, "New Zealand" := 1, "Australia" := 1, "England" := 3, "South Africa" := 1])
  {
    TableAfter7();
    TableEntriesEarly();
    TableStep(8, Umpire("Richard Illingworth", "England"));
    Add8(CountByCountry(Umpires[..7]));
  }

  lemma Add9(d: Dict<string, int>)
    requires d.Valid() && d == Dict(["Pakistan", "New Zealand", "Australia", "England", "South Africa"], map["Pakistan" := 2, "New Zealand" := 1, "Australia" := 1, "England" := 3, "South Africa" := 1])
    ensures AddUmpire(d, Umpire("Rod Tucker", "Australia")).keys == ["Pakistan", "New Zealand", "Australia", "England", "South Africa"]
    ensures AddUmpire(d, Umpire("Rod Tucker", "Australia")).entries == map["Pakistan" := 2, "New Zealand" := 1, "Australia" := 2, "England" := 3, "South Africa" := 1]
  {
    AddExisting(d, Umpire("Rod Tucker", "Australia"));
  }

  lemma TableAfter9()
    ensures CountByCountry(Umpires[..9]) == Dict(["Pakistan", "New Zealand", "Australia", "England", "South Africa"], map["Pakistan" := 2, "New Zealand" := 1, "Australia" := 2, "England" := 3, "South Africa" := 1])
  {
    TableAfter8();
    TableEntriesLate();
    TableStep(9, Umpire("Rod Tucker", "Australia"));
    Add9(CountByCountry(Umpires[..8]));
  }

  lemma Add10(d: Dict<string, int>)
    requires d.Valid() && d == Dict(["Pakistan", "New Zealand", "Australia", "England", "South Africa"], map["Pakistan" := 2, "New Zealand" := 1, "Australia" := 2, "England" := 3, "South Africa" := 1])
    ensures AddUmpire(d, Umpire("Kumar Dharmasena", "Sri Lanka")).keys == ["Pakistan", "New Zealand", "Australia", "England", "South Africa", "Sri Lanka"]
    ensures AddUmpire(d, Umpire("Kumar Dharmasena", "Sri Lanka")).entries == map["Pakistan" := 2, "New Zealand" := 1, "Australia" := 2, "England" := 3, "South Africa" := 1, "Sri Lanka" := 1]
  {
    AddFresh(d, Umpire("Kumar Dharmasena", "Sri Lanka"));
  }

  lemma TableAfter10()
    ensures CountByCountry(Umpires[..10]) == Dict(["Pakistan", "New Zealand", "Australia", "England", "South Africa", "Sri Lanka"], map["Pakistan" := 2, "New Zealand" := 1, "Australia" := 2, "England" := 3, "South Africa" := 1, "Sri Lanka" := 1])
  {
    TableAfter9();
    TableEntriesLate();
    TableStep(10, Umpire("Kumar Dharmasena", "Sri Lanka"));
    Add10(CountByCountry(Umpires[..9]));
  }

  lemma Add11(d: Dict<string, int>)
    requires d.Valid() && d == Dict(["Pakistan", "New Zealand", "Australia", "England", "South Africa", "Sri Lanka"], map["Pakistan" := 2, "New Zealand" := 1, "Australia" := 2, "England" := 3, "South Africa" := 1, "Sri Lanka" := 1])
    ensures AddUmpire(d, Umpire("Simon Taufel", "Australia")).keys == ["Pakistan", "New Zealand", "Australia", "England", "South Africa", "Sri Lanka"]
    ensures AddUmpire(d, Umpire("Simon Taufel", "Australia")).entries == map["Pakistan" := 2, "New Zealand" := 1, "Australia" := 3, "England" := 3, "South Africa" := 1, "Sri Lanka" := 1]
  {
    AddExisting(d, Umpire("Simon Taufel", "Australia"));
  }

  lemma TableAfter11()
    ensures CountByCountry(Umpires[..11]) == Dict(["Pakistan", "New Zealand", "Australia", "England", "South Africa", "Sri Lanka"], map["Pakistan" := 2, "New Zealand" := 1, "Australia" := 3, "England" := 3, "South Africa" := 1, "Sri Lanka" := 1])
  {
    TableAfter10();
    TableEntriesLate();
    TableStep(11, Umpire("Simon Taufel", "Australia"));
    Add11(CountByCountry(Umpires[..10]));
  }

  lemma Add12(d: Dict<string, int>)
    requires d.Valid() && d == Dict(["Pakistan", "New Zealand", "Australia", "England", "South Africa", "Sri Lanka"], map["Pakistan" := 2, "New Zealand" := 1, "Australia" := 3, "England" := 3, "South Africa" := 1, "Sri Lanka" := 1])
    ensures AddUmpire(d, Umpire("Tonny Hill", "New Zealand")).keys == ["Pakistan", "New Zealand", "Australia", "England", "South Africa", "Sri Lanka"]
    ensures AddUmpire(d, Umpire("Tonny Hill", "New Zealand")).entries == map["Pakistan" := 2, "New Zealand" := 2, "Australia" := 3, "England" := 3, "South Africa" := 1, "Sri Lanka" := 1]
  {
    AddExisting(d, Umpire("Tonny Hill", "New Zealand"));
  }

  lemma TableAfter12()
    ensures CountByCountry(Umpires[..12]) == Dict(["Pakistan", "New Zealand", "Australia", "England", "South Africa", "Sri Lanka"], map["Pakistan" := 2, "New Zealand" := 2, "Australia" := 3, "England" := 3, "South Africa" := 1, "Sri Lanka" := 1])
  {
    TableAfter11();
    TableEntriesLate();
    TableStep(12, Umpire("Tonny Hill", "New Zealand"));
    Add12(CountByCountry(Umpires[..11]));
  }

  lemma Add13(d: Dict<string, int>)
    requires d.Valid() && d == Dict(["Pakistan", "New Zealand", "Australia", "England", "South Africa", "Sri Lanka"], map["Pakistan" := 2, "New Zealand" := 2, "Australia" := 3, "England" := 3, "South Africa" := 1, "Sri Lanka" := 1])
    ensures AddUmpire(d, Umpire("Steve Davis", "Australia")).keys == ["Pakistan", "New Zealand", "Australia", "England", "South Africa", "Sri Lanka"]
    ensures AddUmpire(d, Umpire("Steve Davis", "Australia")).entries == map["Pakistan" := 2, "New Zealand" := 2, "Australia" := 4, "England" := 3, "South Africa" := 1, "Sri Lanka" := 1]
  {
    AddExisting(d, Umpire("Steve Davis", "Australia"));
  }

  lemma TableAfter13()
    ensures CountByCountry(Umpires[..13]) == Dict(["Pakistan", "New Zealand", "Australia", "England", "South Africa", "Sri Lanka"], map["Pakistan" := 2, "New Zealand" := 2, "Australia" := 4, "England" := 3, "South Africa" := 1, "Sri Lanka" := 1])
  {
    TableAfter12();
    TableEntriesLate();
    TableStep(13, Umpire("Steve Davis", "Australia"));
    Add13(CountByCountry(Umpires[..12]));
  }

  lemma Add14(d: Dict<string, int>)
    requires d.Valid() && d == Dict(["Pakistan", "New Zealand", "Australia", "England", "South Africa", "Sri Lanka"], map["Pakistan" := 2, "New Zealand" := 2, "Australia" := 4, "England" := 3, "South Africa" := 1, "Sri Lanka" := 1])
    ensures AddUmpire(d, Umpire("Jeff Crowe", "New Zealand")).keys == ["Pakistan", "New Zealand", "Australia", "England", "South Africa", "Sri Lanka"]
    ensures AddUmpire(d, Umpire("Jeff Crowe", "New Zealand")).entries == map["Pakistan" := 2, "New Zealand" := 3, "Australia" := 4, "England" := 3, "South Africa" := 1, "Sri Lanka" := 1]
  {
    AddExisting(d, Umpire("Jeff Crowe", "New Zealand"));
  }

  lemma TableAfter14()
    ensures CountByCountry(Umpires[..14]) == Dict(["Pakistan", "New Zealand", "Australia", "England", "South Africa", "Sri Lanka"], map["Pakistan" := 2, "New Zealand" := 3, "Australia" := 4, "England" := 3, "South Africa" := 1, "Sri Lanka" := 1])
  {
    TableAfter13();
    TableEntriesLate();
    TableStep(14, Umpire("Jeff Crowe", "New Zealand"));
    Add14(CountByCountry(Umpires[..13]));
  }

  lemma Add15(d: Dict<string, int>)
    requires d.Valid() && d == Dict(["Pakistan", "New Zealand", "Australia", "England", "South Africa", "Sri Lanka"], map["Pakistan" := 2, "New Zealand" := 3, "Australia" := 4, "England" := 3, "South Africa" := 1, "Sri Lanka" := 1])
    ensures AddUmpire(d, Umpire("Richard kettleborough", "England")).keys == ["Pakistan", "New Zealand", "Australia", "England", "South Africa", "Sri Lanka"]
    ensures AddUmpire(d, Umpire("Richard kettleborough", "England")).entries == map["Pakistan" := 2, "New Zealand" := 3, "Australia" := 4, "England" := 4, "South Africa" := 1, "Sri Lanka" := 1]
  {
    AddExisting(d, Umpire("Richard kettleborough", "England"));
  }

  lemma TableAfter15()
    ensures CountByCountry(Umpires[..15]) == Dict(["Pakistan", "New Zealand", "Australia", "England", "South Africa", "Sri Lanka"], map["Pakistan" := 2, "New Zealand" := 3, "Australia" := 4, "England" := 4, "South Africa" := 1, "Sri Lanka" := 1])
  {
    TableAfter14();
    TableEntriesLate();
    TableStep(15, Umpire("Richard kettleborough", "England"));
    Add15(CountByCountry(Umpires[..14]));
  }

  /** The written-out counts as the item list the chart receives. */
  lemma TableItems(d: Dict<string, int>)
    requires d == Dict(["Pakistan", "New Zealand", "Australia", "England", "South Africa", "Sri Lanka"], map["Pakistan" := 2, "New Zealand" := 3, "Australia" := 4, "England" := 4, "South Africa" := 1, "Sri Lanka" := 1])
    ensures d.Valid()
    ensures d.Items() == [("Pakistan", 2), ("New Zealand", 3), ("Australia", 4), ("England", 4), ("South Africa", 1), ("Sri Lanka", 1)]
  {
    var items := d.Items();
    assert |items| == 6;
    assert items[0] == ("Pakistan", 2) && items[1] == ("New Zealand", 3) && items[2] == ("Australia", 4);
    assert items[3] == ("England", 4) && items[4] == ("South Africa", 1) && items[5] == ("Sri Lanka", 1);
  }

  /** The script's result on its own table, in insertion order. */
  lemma TableCounts()
    ensures CountByCountry(Umpires) == Dict(["Pakistan", "New Zealand", "Australia", "England", "South Africa", "Sri Lanka"], map["Pakistan" := 2, "New Zealand" := 3, "Australia" := 4, "England" := 4, "South Africa" := 1, "Sri Lanka" := 1])
    ensures CountByCountry(Umpires).Items() == [("Pakistan", 2), ("New Zealand", 3), ("Australia", 4), ("England", 4), ("South Africa", 1), ("Sri Lanka", 1)]
  {
    TableAfter15();
    assert Umpires[..15] == Umpires;
    TableItems(CountByCountry(Umpires));
  }
}

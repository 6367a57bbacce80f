/**
 * The route handling of the dashboard script (main.py): the code expander, the route
 * canonicaliser, the filter that keeps only legs with fetched availability, the loop that
 * collects every airline code for the airline selector, and the pipeline from route text
 * to chart rows. The country and city expansion tables are parameters.
 */
module Dashboard {
  import opened Seqs
  import opened PyStrings
  import opened Api
  import opened Plot

  /** A location-code expansion table: country or city shorthand to airport codes. */
  type Table = map<string, seq<string>>

  /**
   * `expand_code`: a country code expands through the country table when country expansion
   * is on; otherwise a city code through the city table when city expansion is on;
   * anything else passes through as the one-element list `[code]`.
   */
  function ExpandCode(code: string, expandCountry: bool, expandCity: bool, countries: Table, cities: Table): (r: seq<string>)
    ensures expandCountry && code in countries ==> r == countries[code]
    ensures !(expandCountry && code in countries) && expandCity && code in cities ==> r == cities[code]
    ensures !(expandCountry && code in countries) && !(expandCity && code in cities) ==> r == [code]
  {
    if expandCountry && code in countries then countries[code]
    else if expandCity && code in cities then cities[code]
    else [code]
  }

  /** A code in both tables expands through the country table when both expansions are on. */
  lemma CountryBeforeCity(code: string, countries: Table, cities: Table)
    requires code in countries && code in cities
    ensures ExpandCode(code, true, true, countries, cities) == countries[code]
  {
  }

  /** With both expansions off every code passes through unchanged. */
  lemma ExpandCodeOff(code: string, countries: Table, cities: Table)
    ensures ExpandCode(code, false, false, countries, cities) == [code]
  {
  }

  /**
   * `itertools.product(xs, ys)`: every pair `(x, y)`, ordered by the position of `x`, then
   * by the position of `y`.
   */
  function Product(xs: seq<string>, ys: seq<string>): seq<Leg>
  {
    if xs == [] then []
    else seq(|ys|, j requires 0 <= j < |ys| => (xs[0], ys[j])) + Product(xs[1..], ys)
  }

  /** The product has one pair per choice of an `xs` and a `ys` element. */
  lemma {:induction false} ProductLength(xs: seq<string>, ys: seq<string>)
    ensures |Product(xs, ys)| == |xs| * |ys|
  {
    if xs != [] {
      ProductLength(xs[1..], ys);
      assert |xs| * |ys| == |ys| + (|xs| - 1) * |ys|;
    }
  }

  /** A single origin and a single destination give the one pair. */
  lemma ProductOne(x: string, y: string)
    ensures Product([x], [y]) == [(x, y)]
  {
    assert [x][1..] == [];
    assert seq(1, j requires 0 <= j < 1 => (x, [y][j])) == [(x, y)];
  }

  /** The pair `(xs[i], ys[j])` sits at position `i * |ys| + j` of the product. */
  lemma {:induction false} ProductAt(xs: seq<string>, ys: seq<string>, i: nat, j: nat)
    requires i < |xs| && j < |ys|
    ensures i * |ys| + j < |Product(xs, ys)|
    ensures Product(xs, ys)[i * |ys| + j] == (xs[i], ys[j])
  {
    var n := |ys|;
    if i == 0 {
      assert |Product(xs, ys)| >= n;
    } else {
      ProductAt(xs[1..], ys, i - 1, j);
      MulPred(i, n);
      var rest := Product(xs[1..], ys);
      assert Product(xs, ys) == seq(n, k requires 0 <= k < n => (xs[0], ys[k])) + rest;
      assert i * n + j == n + ((i - 1) * n + j);
    }
  }

  lemma MulPred(i: nat, n: nat)
    requires i > 0
    ensures i * n == n + (i - 1) * n
  {
  }

  /** The legs one raw pair expands to: the product of the two endpoint expansions. */
  function ExpandPair(p: Leg, expandCountry: bool, expandCity: bool, countries: Table, cities: Table): seq<Leg>
  {
    Product(ExpandCode(p.0, expandCountry, expandCity, countries, cities),
            ExpandCode(p.1, expandCountry, expandCity, countries, cities))
  }

  /** The expansion of a list of raw pairs, pair by pair. */
  function ExpandLegs(route: seq<Leg>, expandCountry: bool, expandCity: bool, countries: Table, cities: Table): seq<Leg>
  {
    if route == [] then []
    else ExpandLegs(route[..|route| - 1], expandCountry, expandCity, countries, cities)
         + ExpandPair(route[|route| - 1], expandCountry, expandCity, countries, cities)
  }

  /**
   * `expand_route`: for each raw pair in order, append the product of its endpoint
   * expansions.
   */
  method ExpandRoute(route: seq<Leg>, expandCountry: bool, expandCity: bool, countries: Table, cities: Table)
    returns (res: seq<Leg>)
    ensures res == ExpandLegs(route, expandCountry, expandCity, countries, cities)
  {
    res := [];
    var i := 0;
    while i < |route|
      invariant 0 <= i <= |route|
      invariant res == ExpandLegs(route[..i], expandCountry, expandCity, countries, cities)
    {
      var (org, dest) := route[i];
      res := res + Product(ExpandCode(org, expandCountry, expandCity, countries, cities),
                           ExpandCode(dest, expandCountry, expandCity, countries, cities));
      assert route[..i + 1][..i] == route[..i];
      i := i + 1;
    }
    assert route[..i] == route;
  }

  /** The sum over raw pairs of |expansion of origin| * |expansion of destination|. */
  function ExpandedCount(route: seq<Leg>, expandCountry: bool, expandCity: bool, countries: Table, cities: Table): nat
  {
    if route == [] then 0
    else
      var p := route[0];
      |ExpandCode(p.0, expandCountry, expandCity, countries, cities)|
        * |ExpandCode(p.1, expandCountry, expandCity, countries, cities)|
      + ExpandedCount(route[1..], expandCountry, expandCity, countries, cities)
  }

  /** Expansion distributes over concatenation: output order follows input pair order. */
  lemma {:induction false} ExpandLegsAppend(r1: seq<Leg>, r2: seq<Leg>, expandCountry: bool, expandCity: bool,
                                           countries: Table, cities: Table)
    ensures ExpandLegs(r1 + r2, expandCountry, expandCity, countries, cities)
            == ExpandLegs(r1, expandCountry, expandCity, countries, cities)
               + ExpandLegs(r2, expandCountry, expandCity, countries, cities)
  {
    if r2 == [] {
      assert r1 + r2 == r1;
    } else {
      var init, last := r2[..|r2| - 1], r2[|r2| - 1];
      assert (r1 + r2)[..|r1 + r2| - 1] == r1 + init;
      assert (r1 + r2)[|r1 + r2| - 1] == last;
      ExpandLegsAppend(r1, init, expandCountry, expandCity, countries, cities);
      var e1 := ExpandLegs(r1, expandCountry, expandCity, countries, cities);
      var ei := ExpandLegs(init, expandCountry, expandCity, countries, cities);
      var el := ExpandPair(last, expandCountry, expandCity, countries, cities);
      calc {
        ExpandLegs(r1 + r2, expandCountry, expandCity, countries, cities);
        ExpandLegs(r1 + init, expandCountry, expandCity, countries, cities) + el;
        (e1 + ei) + el;
        e1 + (ei + el);
        e1 + ExpandLegs(r2, expandCountry, expandCity, countries, cities);
      }
    }
  }

  /** The number of expanded legs is the sum of the per-pair products of expansion sizes. */
  lemma {:induction false} ExpandLegsLength(route: seq<Leg>, expandCountry: bool, expandCity: bool,
                                           countries: Table, cities: Table)
    ensures |ExpandLegs(route, expandCountry, expandCity, countries, cities)|
            == ExpandedCount(route, expandCountry, expandCity, countries, cities)
  {
    if route != [] {
      ExpandLegsLength(route[1..], expandCountry, expandCity, countries, cities);
      assert route == [route[0]] + route[1..];
      ExpandLegsAppend([route[0]], route[1..], expandCountry, expandCity, countries, cities);
      ExpandLegsOne(route[0], expandCountry, expandCity, countries, cities);
      ProductLength(ExpandCode(route[0].0, expandCountry, expandCity, countries, cities),
                    ExpandCode(route[0].1, expandCountry, expandCity, countries, cities));
    }
  }

  /** With both expansions off the raw pairs come back unchanged. */
  lemma {:induction false} ExpandLegsIdentity(route: seq<Leg>, countries: Table, cities: Table)
    ensures ExpandLegs(route, false, false, countries, cities) == route
  {
    if route != [] {
      var init := route[..|route| - 1];
      ExpandLegsIdentity(init, countries, cities);
      var p := route[|route| - 1];
      ProductOne(p.0, p.1);
      assert ExpandPair(p, false, false, countries, cities) == [(p.0, p.1)];
      assert route == init + [p];
    }
  }

  /** `zip(stops[:-1], stops[1:])`: each stop paired with the next one. */
  function Pairs(stops: seq<string>): (r: seq<Leg>)
    ensures |r| == if |stops| == 0 then 0 else |stops| - 1
    ensures forall i :: 0 <= i < |r| ==> r[i] == (stops[i], stops[i + 1])
  {
    if |stops| < 2 then [] else [(stops[0], stops[1])] + Pairs(stops[1..])
  }

  /** A clause with `k` separators has `k + 1` stops and yields `k` pairs; none without one. */
  lemma ClausePairs(clause: string)
    ensures |Pairs(Split(clause, '-'))| == Count(clause, '-')
    ensures '-' !in clause ==> Pairs(Split(clause, '-')) == []
  {
    CountZero(clause, '-');
  }

  /**
   * The normalisation: every space is removed, then each non-overlapping `"->"` becomes
   * `"-"`. Other characters, commas included, keep their count.
   */
  function Normalize(route: string): (r: string)
    ensures ' ' !in r
    ensures forall c :: c != ' ' && c != '-' && c != '>' ==> Count(r, c) == Count(route, c)
  {
    var noSpaces := Replace(route, " ", "");
    ReplaceRemoves(route, ' ');
    CountZero(noSpaces, ' ');
    var r := Replace(noSpaces, "->", "-");
    CountZero(r, ' ');
    r
  }

  /** The route text splits into one clause per comma, plus one. */
  lemma ClauseCount(route: string)
    ensures |Split(Normalize(route), ',')| == Count(route, ',') + 1
  {
  }

  /** The raw pairs of a list of clauses, clause by clause. */
  function ClauseLegs(clauses: seq<string>): seq<Leg>
  {
    if clauses == [] then []
    else ClauseLegs(clauses[..|clauses| - 1]) + Pairs(Split(clauses[|clauses| - 1], '-'))
  }

  /** The raw (unexpanded) pairs of a route text. */
  function RawLegs(route: string): seq<Leg>
  {
    ClauseLegs(Split(Normalize(route), ','))
  }

  /** The canonical legs of a route text: its raw pairs, expanded. */
  function Canonical(route: string, expandCountry: bool, expandCity: bool, countries: Table, cities: Table): seq<Leg>
  {
    ExpandLegs(RawLegs(route), expandCountry, expandCity, countries, cities)
  }

  /**
   * `canonicalize_route`: normalise, split into comma clauses, append the consecutive-stop
   * pairs of each clause, then expand.
   */
  method CanonicalizeRoute(route: string, expandCountry: bool, expandCity: bool, countries: Table, cities: Table)
    returns (res: seq<Leg>)
    ensures res == Canonical(route, expandCountry, expandCity, countries, cities)
  {
    var normalized := Replace(Replace(route, " ", ""), "->", "-");
    var segs := Split(normalized, ',');
    var raw: seq<Leg> := [];
    var i := 0;
    while i < |segs|
      invariant 0 <= i <= |segs|
      invariant raw == ClauseLegs(segs[..i])
    {
      var stops := Split(segs[i], '-');
      raw := raw + Pairs(stops);
      assert segs[..i + 1][..i] == segs[..i];
      i := i + 1;
    }
    assert segs[..i] == segs;
    res := ExpandRoute(raw, expandCountry, expandCity, countries, cities);
  }

  // Worked examples.

  lemma ExampleNormalize()
    ensures Normalize("JFK->HND->BKK,HND->JFK") == "JFK-HND-BKK,HND-JFK"
  {
    var route := "JFK->HND->BKK,HND->JFK";
    ReplaceAbsent(route, " ", "", ' ');
    ExampleArrows("JFK", "HND", "BKK,HND", "JFK");
  }

  lemma ExampleArrows(a: string, b: string, c: string, d: string)
    requires a == "JFK" && b == "HND" && c == "BKK,HND" && d == "JFK"
    ensures Replace("JFK->HND->BKK,HND->JFK", "->", "-") == "JFK-HND-BKK,HND-JFK"
  {
    assert "JFK->HND->BKK,HND->JFK" == a + ("->" + (b + ("->" + (c + ("->" + d)))));
    assert "JFK-HND-BKK,HND-JFK" == a + ("-" + (b + ("-" + (c + ("-" + d)))));
    ReplaceThree(a, b, c, d, "->", "-");
  }

  lemma ExampleClauses(a: string, b: string)
    requires a == "JFK-HND-BKK" && b == "HND-JFK"
    ensures Split("JFK-HND-BKK,HND-JFK", ',') == ["JFK-HND-BKK", "HND-JFK"]
  {
    assert "JFK-HND-BKK,HND-JFK" == a + [','] + b;
    SplitTwo(a, b, ',');
  }

  lemma ExampleStopsFirst(a: string, b: string, c: string)
    requires a == "JFK" && b == "HND" && c == "BKK"
    ensures Split("JFK-HND-BKK", '-') == ["JFK", "HND", "BKK"]
  {
    assert "JFK-HND-BKK" == a + ['-'] + b + ['-'] + c;
    SplitThree(a, b, c, '-');
  }

  lemma ExampleStopsSecond(a: string, b: string)
    requires a == "HND" && b == "JFK"
    ensures Split("HND-JFK", '-') == ["HND", "JFK"]
  {
    assert "HND-JFK" == a + ['-'] + b;
    SplitTwo(a, b, '-');
  }

  lemma ClauseLegsTwo(c1: string, c2: string)
    ensures ClauseLegs([c1, c2]) == Pairs(Split(c1, '-')) + Pairs(Split(c2, '-'))
  {
    assert [c1, c2][..1] == [c1];
    ClauseLegsOne(c1);
  }

  lemma PairsThree(a: string, b: string, c: string)
    ensures Pairs([a, b, c]) == [(a, b), (b, c)]
  {
  }

  /** A route text whose normal form has two clauses yields the pairs of both, in order. */
  lemma RawLegsTwoClauses(route: string, c1: string, c2: string, s1: seq<string>, s2: seq<string>)
    requires Split(Normalize(route), ',') == [c1, c2]
    requires Split(c1, '-') == s1 && Split(c2, '-') == s2
    ensures RawLegs(route) == Pairs(s1) + Pairs(s2)
  {
    ClauseLegsTwo(c1, c2);
  }

  lemma ExampleRawLegs()
    ensures RawLegs("JFK->HND->BKK,HND->JFK") == [("JFK", "HND"), ("HND", "BKK"), ("HND", "JFK")]
  {
    ExampleNormalize();
    ExampleClauses("JFK-HND-BKK", "HND-JFK");
    ExampleStopsFirst("JFK", "HND", "BKK");
    ExampleStopsSecond("HND", "JFK");
    ExampleRawLegsFrom("JFK->HND->BKK,HND->JFK", "JFK-HND-BKK", "HND-JFK", "JFK", "HND", "BKK");
  }

  lemma ExampleRawLegsFrom(route: string, c1: string, c2: string, a: string, b: string, c: string)
    requires Split(Normalize(route), ',') == [c1, c2]
    requires Split(c1, '-') == [a, b, c] && Split(c2, '-') == [b, a]
    ensures RawLegs(route) == [(a, b), (b, c), (b, a)]
  {
    RawLegsTwoClauses(route, c1, c2, [a, b, c], [b, a]);
    PairsThree(a, b, c);
    assert Pairs([b, a]) == [(b, a)];
  }

  /** `"JFK->HND->BKK,HND->JFK"` without expansion gives JFK-HND, HND-BKK, HND-JFK. */
  lemma CanonicalExample(countries: Table, cities: Table)
    ensures Canonical("JFK->HND->BKK,HND->JFK", false, false, countries, cities)
            == [("JFK", "HND"), ("HND", "BKK"), ("HND", "JFK")]
  {
    ExampleRawLegs();
    ExpandLegsIdentity([("JFK", "HND"), ("HND", "BKK"), ("HND", "JFK")], countries, cities);
  }

  lemma ExampleRawCountry()
    ensures RawLegs("US-LHR") == [("US", "LHR")]
  {
    ExampleCountryText("US-LHR", "US", "LHR");
    ClauseLegsOne("US-LHR");
  }

  lemma ClauseLegsOne(c: string)
    ensures ClauseLegs([c]) == Pairs(Split(c, '-'))
  {
    assert [c][..0] == [];
    assert ClauseLegs([]) == [];
    assert [] + Pairs(Split(c, '-')) == Pairs(Split(c, '-'));
  }

  /** A text without spaces and without `>` is already normal. */
  lemma NormalizeClean(s: string)
    requires ' ' !in s && '>' !in s
    ensures Normalize(s) == s
  {
    ReplaceAbsent(s, " ", "", ' ');
    ReplaceAbsent(s, "->", "-", '>');
  }

  lemma ExampleCountryText(s: string, a: string, b: string)
    requires a == "US" && b == "LHR" && s == a + ['-'] + b
    ensures Split(Normalize(s), ',') == [s]
    ensures Split(s, '-') == [a, b]
  {
    assert forall i :: 0 <= i < |s| ==> s[i] in "US-LHR";
    NormalizeClean(s);
    SplitNoSep(s, ',');
    SplitTwo(a, b, '-');
  }

  /** The expansion of a single raw pair. */
  lemma ExpandLegsOne(p: Leg, expandCountry: bool, expandCity: bool, countries: Table, cities: Table)
    ensures ExpandLegs([p], expandCountry, expandCity, countries, cities)
            == ExpandPair(p, expandCountry, expandCity, countries, cities)
  {
    assert [p][..0] == [];
  }

  lemma ProductTwoByOne(x1: string, x2: string, y: string)
    ensures Product([x1, x2], [y]) == [(x1, y), (x2, y)]
  {
    assert [x1, x2][1..] == [x2];
    ProductOne(x1, y);
    ProductOne(x2, y);
  }

  /** `"US-LHR"` with country expansion and US = [JFK, LAX] gives JFK-LHR, LAX-LHR. */
  lemma CountryExample(countries: Table, cities: Table)
    requires "US" in countries && countries["US"] == ["JFK", "LAX"] && "LHR" !in countries
    ensures Canonical("US-LHR", true, false, countries, cities) == [("JFK", "LHR"), ("LAX", "LHR")]
  {
    ExampleRawCountry();
    ExpandLegsOne(("US", "LHR"), true, false, countries, cities);
    ProductTwoByOne("JFK", "LAX", "LHR");
  }

  // The legs with fetched availability (main.py, `all_possible_routes` and `filtered_route`).

  /** The legs of the fetched records. */
  function PossibleLegs(avails: seq<Availability>): (r: set<Leg>)
    ensures forall a :: a in avails ==> LegOf(a) in r
    ensures forall leg :: leg in r ==> exists a :: a in avails && LegOf(a) == leg
  {
    set a | a in avails :: LegOf(a)
  }

  function InSet(legs: set<Leg>): Leg -> bool
  {
    (leg: Leg) => leg in legs
  }

  /** The canonical legs that some fetched record serves, in canonical order. */
  function FilterLegs(route: seq<Leg>, possible: set<Leg>): seq<Leg>
  {
    Filter(route, InSet(possible))
  }

  /**
   * The kept legs are exactly the canonical legs in `possible`, as an in-order subsequence
   * of the canonical legs.
   */
  lemma FilterLegsSpec(route: seq<Leg>, possible: set<Leg>, leg: Leg)
    ensures leg in FilterLegs(route, possible) <==> leg in route && leg in possible
    ensures IsSubseq(FilterLegs(route, possible), route)
  {
    FilterMembership(route, InSet(possible), leg);
    FilterIsSubseq(route, InSet(possible));
  }

  // The airline selector's options (main.py, the `all_airlines` loop).

  /** The fare classes in the order the dashboard lists them. */
  const AllFares: seq<Fare> := [Y, W, F, J]

  /** Every fare class is listed. */
  lemma AllFaresComplete(fare: Fare)
    ensures fare in AllFares
  {
    assert AllFares[0] == Y && AllFares[1] == W && AllFares[2] == F && AllFares[3] == J;
  }

  /** The airline codes of one record over all four classes. */
  function RecordAirlines(): Availability -> set<string>
  {
    a => AirlinesOver(a, AllFares)
  }

  /** The airline codes of every record in `avails`, over all four classes. */
  function AirlinesOfAll(avails: seq<Availability>): set<string>
  {
    UnionOver(avails, RecordAirlines())
  }

  /** A code is collected exactly when some class of some record lists it. */
  lemma AirlinesOfAllMember(avails: seq<Availability>, x: string)
    ensures x in AirlinesOfAll(avails) <==>
            exists a, fare :: a in avails && x in AirlineSet(Airlines(a, fare))
  {
    UnionOverMember(avails, RecordAirlines(), x);
    if x in AirlinesOfAll(avails) {
      var a :| a in avails && x in RecordAirlines()(a);
      UnionOverMember(AllFares, ClassAirlines(a), x);
      var fare :| fare in AllFares && x in ClassAirlines(a)(fare);
      assert x in AirlineSet(Airlines(a, fare));
    } else {
      forall a, fare | a in avails
        ensures x !in AirlineSet(Airlines(a, fare))
      {
        assert x !in RecordAirlines()(a);
        UnionOverMember(AllFares, ClassAirlines(a), x);
        AllFaresComplete(fare);
        assert x !in ClassAirlines(a)(fare);
      }
    }
  }

  /**
   * The loop that collects the airline selector's options: every stripped, non-empty
   * comma-piece of every class's airline string of every record.
   */
  method CollectAirlines(avails: seq<Availability>) returns (allAirlines: set<string>)
    ensures forall x :: x in allAirlines <==>
              exists a, fare :: a in avails && x in AirlineSet(Airlines(a, fare))
    ensures "" !in allAirlines
  {
    allAirlines := {};
    var i := 0;
    while i < |avails|
      invariant 0 <= i <= |avails|
      invariant allAirlines == AirlinesOfAll(avails[..i])
    {
      var a := avails[i];
      var k := 0;
      while k < |AllFares|
        invariant 0 <= k <= |AllFares|
        invariant allAirlines == AirlinesOfAll(avails[..i]) + AirlinesOver(a, AllFares[..k])
      {
        allAirlines := allAirlines + AirlineSet(Airlines(a, AllFares[k]));
        assert AllFares[..k + 1][..k] == AllFares[..k];
        assert ClassAirlines(a)(AllFares[k]) == AirlineSet(Airlines(a, AllFares[k]));
        k := k + 1;
      }
      assert AllFares[..k] == AllFares;
      assert avails[..i + 1][..i] == avails[..i];
      assert RecordAirlines()(a) == AirlinesOver(a, AllFares);
      i := i + 1;
    }
    assert avails[..i] == avails;
    forall x
      ensures x in allAirlines <==> exists a, fare :: a in avails && x in AirlineSet(Airlines(a, fare))
    {
      AirlinesOfAllMember(avails, x);
    }
  }

  // The call at main.py:124 and the pipeline to chart rows.

  /**
   * The legs as main.py:124 computes them: the "Expand country" box is passed where
   * `canonicalize_route` expects the city flag and the "Expand city" box where it expects
   * the country flag.
   */
  function SelectedLegsAsWritten(route: string, countryBox: bool, cityBox: bool, countries: Table, cities: Table): seq<Leg>
  {
    Canonical(route, cityBox, countryBox, countries, cities)
  }

  /** With "Expand country" off and "Expand city" on, "US-LHR" is still expanded through the country table. */
  lemma SwappedFlagsExpandCountry(countries: Table, cities: Table)
    requires "US" in countries && countries["US"] == ["JFK", "LAX"] && "LHR" !in countries
    ensures SelectedLegsAsWritten("US-LHR", false, true, countries, cities) == [("JFK", "LHR"), ("LAX", "LHR")]
  {
    CountryExample(countries, cities);
  }

  /** The legs with each box passed to the flag it names. */
  function SelectedLegs(route: string, countryBox: bool, cityBox: bool, countries: Table, cities: Table): seq<Leg>
  {
    Canonical(route, countryBox, cityBox, countries, cities)
  }

  lemma {:induction false} ExpandLegsWithoutCountries(route: seq<Leg>, cityBox: bool, countries: Table, cities: Table)
    ensures ExpandLegs(route, false, cityBox, countries, cities) == ExpandLegs(route, false, cityBox, map[], cities)
  {
    if route != [] {
      ExpandLegsWithoutCountries(route[..|route| - 1], cityBox, countries, cities);
    }
  }

  lemma {:induction false} ExpandLegsWithoutCities(route: seq<Leg>, countryBox: bool, countries: Table, cities: Table)
    ensures ExpandLegs(route, countryBox, false, countries, cities) == ExpandLegs(route, countryBox, false, countries, map[])
  {
    if route != [] {
      ExpandLegsWithoutCities(route[..|route| - 1], countryBox, countries, cities);
    }
  }

  /**
   * A box that is off switches its table off: the legs are those computed without that
   * table's entries.
   */
  lemma SelectedLegsHonourBoxes(route: string, countryBox: bool, cityBox: bool, countries: Table, cities: Table)
    ensures !countryBox ==> SelectedLegs(route, countryBox, cityBox, countries, cities)
                            == SelectedLegs(route, countryBox, cityBox, map[], cities)
    ensures !cityBox ==> SelectedLegs(route, countryBox, cityBox, countries, cities)
                         == SelectedLegs(route, countryBox, cityBox, countries, map[])
  {
    if !countryBox {
      ExpandLegsWithoutCountries(RawLegs(route), cityBox, countries, cities);
    }
    if !cityBox {
      ExpandLegsWithoutCities(RawLegs(route), countryBox, countries, cities);
    }
  }

  /** With "Expand country" off, "US-LHR" stays the single leg US-LHR when neither code is a city. */
  lemma IntendedFlagsKeepCountry(countries: Table, cities: Table)
    requires "US" !in cities && "LHR" !in cities
    ensures SelectedLegs("US-LHR", false, true, countries, cities) == [("US", "LHR")]
  {
    ExampleRawCountry();
    ExpandLegsOne(("US", "LHR"), false, true, countries, cities);
    assert Product(["US"], ["LHR"]) == [("US", "LHR")];
  }

  /**
   * From route text to chart rows as main.py:124-129 computes them: canonicalise with the
   * boxes swapped as at main.py:124, keep the legs some record serves, project and filter.
   */
  method ChartRows(routeText: string, countryBox: bool, cityBox: bool, avails: seq<Availability>,
                   airlines: seq<string>, fares: seq<string>, countries: Table, cities: Table)
    returns (rows: seq<Row>)
    ensures rows == FareFilter(AirlineFilter(
              Project(avails, FilterLegs(SelectedLegsAsWritten(routeText, countryBox, cityBox, countries, cities), PossibleLegs(avails))),
              SetOf(airlines)), SetOf(fares))
  {
    var canonicalized := CanonicalizeRoute(routeText, cityBox, countryBox, countries, cities);
    var filtered := FilterLegs(canonicalized, PossibleLegs(avails));
    rows := GetRouteDf(avails, filtered, airlines, fares);
  }

  /** The same pipeline with each box passed to the flag it names. */
  method ChartRowsIntended(routeText: string, countryBox: bool, cityBox: bool, avails: seq<Availability>,
                           airlines: seq<string>, fares: seq<string>, countries: Table, cities: Table)
    returns (rows: seq<Row>)
    ensures rows == FareFilter(AirlineFilter(
              Project(avails, FilterLegs(SelectedLegs(routeText, countryBox, cityBox, countries, cities), PossibleLegs(avails))),
              SetOf(airlines)), SetOf(fares))
  {
    var canonicalized := CanonicalizeRoute(routeText, countryBox, cityBox, countries, cities);
    var filtered := FilterLegs(canonicalized, PossibleLegs(avails));
    rows := GetRouteDf(avails, filtered, airlines, fares);
  }
}

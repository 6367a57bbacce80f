/**
 * The route/fare projector of seats_aero/plot.py (`get_route_df`): index the records by
 * leg, walk the requested legs, emit one row per available fare class of each record,
 * then keep the rows that match the airline and fare selections. The table handed to
 * the chart is a sequence of rows here.
 */
module Plot {
  import opened Seqs
  import opened PyStrings
  import opened Api

  /** One chart row: date, leg label, airline string, fare class, freshness, direct flag. */
  datatype Row = Row(date: Timestamp, route: string, airlines: string, fare: Fare, freshness: string, direct: bool)

  /** The fare classes in the order the rows of one record are emitted (F before J). */
  const FareOrder: seq<Fare> := [Y, W, F, J]

  /** The row a record contributes for one fare class. */
  function MakeRow(a: Availability, fare: Fare): Row
  {
    Row(a.parsedDate, RouteStr(a), Airlines(a, fare), fare, a.computedLastSeen, Direct(a, fare))
  }

  /** The test "this record belongs to `leg`". */
  function OnLeg(leg: Leg): Availability -> bool
  {
    (a: Availability) => LegOf(a) == leg
  }

  /** The records of `leg`, in input order: the list the leg index holds for it. */
  function Group(avails: seq<Availability>, leg: Leg): seq<Availability>
  {
    Filter(avails, OnLeg(leg))
  }

  /**
   * A leg's group is the in-order subsequence of the input made of exactly the records on
   * that leg.
   */
  lemma GroupSpec(avails: seq<Availability>, leg: Leg, a: Availability)
    ensures a in Group(avails, leg) <==> a in avails && LegOf(a) == leg
    ensures IsSubseq(Group(avails, leg), avails)
  {
    FilterMembership(avails, OnLeg(leg), a);
    FilterIsSubseq(avails, OnLeg(leg));
  }

  lemma GroupAppend(avails: seq<Availability>, a: Availability, leg: Leg)
    ensures Group(avails + [a], leg) == Group(avails, leg) + (if LegOf(a) == leg then [a] else [])
  {
    FilterAppend(avails, [a], OnLeg(leg));
    assert Filter([a], OnLeg(leg)) == (if LegOf(a) == leg then [a] else []) + Filter([], OnLeg(leg));
  }

  /** A lookup in the leg index; the `defaultdict(list)` gives `[]` for a leg it never saw. */
  function Lookup(index: map<Leg, seq<Availability>>, leg: Leg): seq<Availability>
  {
    if leg in index then index[leg] else []
  }

  /**
   * The loop that fills `avail_dict`: each record is appended to its leg's list. Every leg
   * maps to its group; legs without records are absent and read as empty.
   */
  method BuildIndex(avails: seq<Availability>) returns (index: map<Leg, seq<Availability>>)
    ensures forall leg :: Lookup(index, leg) == Group(avails, leg)
    ensures forall leg :: leg in index <==> Group(avails, leg) != []
  {
    index := map[];
    var i := 0;
    while i < |avails|
      invariant 0 <= i <= |avails|
      invariant forall leg :: Lookup(index, leg) == Group(avails[..i], leg)
      invariant forall leg :: leg in index <==> Group(avails[..i], leg) != []
    {
      var a := avails[i];
      var leg := LegOf(a);
      if leg !in index {
        index := index[leg := []];
      }
      index := index[leg := index[leg] + [a]];
      assert avails[..i + 1] == avails[..i] + [a];
      forall l ensures Group(avails[..i + 1], l) == Group(avails[..i], l) + (if leg == l then [a] else []) {
        GroupAppend(avails[..i], a, l);
      }
      i := i + 1;
    }
    assert avails[..i] == avails;
  }

  /** The rows of record `a` for the classes in `fares` that are available, in that order. */
  function FareRows(a: Availability, fares: seq<Fare>): seq<Row>
  {
    if fares == [] then []
    else
      var fare := fares[|fares| - 1];
      FareRows(a, fares[..|fares| - 1]) + (if Available(a, fare) then [MakeRow(a, fare)] else [])
  }

  /** The rows of a list of records, record by record. */
  function RecordRows(recs: seq<Availability>): seq<Row>
  {
    if recs == [] then []
    else RecordRows(recs[..|recs| - 1]) + FareRows(recs[|recs| - 1], FareOrder)
  }

  /** The unfiltered rows for the requested legs: leg by leg, each leg's group in order. */
  function Project(avails: seq<Availability>, legs: seq<Leg>): seq<Row>
  {
    if legs == [] then []
    else Project(avails, legs[..|legs| - 1]) + RecordRows(Group(avails, legs[|legs| - 1]))
  }

  /** Some stripped comma-piece of `airlines` is one of the selected airlines. */
  predicate AirlineMatch(airlines: string, airlineSet: set<string>)
  {
    exists p :: p in Split(airlines, ',') && Strip(p) in airlineSet
  }

  /** Some space-piece of the fare code is one of the selected codes. */
  predicate FareMatch(fare: Fare, codes: set<string>)
  {
    exists p :: p in Split(Code(fare), ' ') && p in codes
  }

  function KeepAirline(airlineSet: set<string>): Row -> bool
  {
    (r: Row) => AirlineMatch(r.airlines, airlineSet)
  }

  function KeepFare(codes: set<string>): Row -> bool
  {
    (r: Row) => FareMatch(r.fare, codes)
  }

  /** The airline selection; an empty selection keeps every row. */
  function AirlineFilter(rows: seq<Row>, airlineSet: set<string>): seq<Row>
  {
    if |airlineSet| > 0 then Filter(rows, KeepAirline(airlineSet)) else rows
  }

  /** The fare selection; an empty selection keeps every row. */
  function FareFilter(rows: seq<Row>, codes: set<string>): seq<Row>
  {
    if |codes| > 0 then Filter(rows, KeepFare(codes)) else rows
  }

  /** The set of the elements of a list (Python's `set(xs)`). */
  function SetOf(xs: seq<string>): (s: set<string>)
    ensures forall x :: x in s <==> x in xs
  {
    set x | x in xs
  }

  /** The innermost loop of `get_route_df`: append a row for each available class of `a`, in fare order. */
  method AppendFareRows(res: seq<Row>, a: Availability) returns (out: seq<Row>)
    ensures out == res + FareRows(a, FareOrder)
  {
    out := res;
    var k := 0;
    while k < |FareOrder|
      invariant 0 <= k <= |FareOrder|
      invariant out == res + FareRows(a, FareOrder[..k])
    {
      var fare := FareOrder[k];
      if Available(a, fare) {
        out := out + [MakeRow(a, fare)];
      }
      assert FareOrder[..k + 1][..k] == FareOrder[..k];
      k := k + 1;
    }
    assert FareOrder[..k] == FareOrder;
  }

  /** The middle loop of `get_route_df`: append the rows of each record of one leg, in order. */
  method AppendRecordRows(res: seq<Row>, recs: seq<Availability>) returns (out: seq<Row>)
    ensures out == res + RecordRows(recs)
  {
    out := res;
    var j := 0;
    while j < |recs|
      invariant 0 <= j <= |recs|
      invariant out == res + RecordRows(recs[..j])
    {
      out := AppendFareRows(out, recs[j]);
      assert recs[..j + 1][..j] == recs[..j];
      j := j + 1;
    }
    assert recs[..j] == recs;
  }

  /**
   * `get_route_df`: builds the leg index, walks the legs (and, through the two methods
   * above, their records and fare classes), then applies the airline filter and the fare
   * filter. The rows are the filtered projection.
   */
  method GetRouteDf(avails: seq<Availability>, canonicalRoute: seq<Leg>, airlines: seq<string>, classCode: seq<string>)
    returns (rows: seq<Row>)
    ensures rows == FareFilter(AirlineFilter(Project(avails, canonicalRoute), SetOf(airlines)), SetOf(classCode))
  {
    var airlinesSet := SetOf(airlines);
    var classCodeSet := SetOf(classCode);
    var index := BuildIndex(avails);
    var res: seq<Row> := [];
    var i := 0;
    while i < |canonicalRoute|
      invariant 0 <= i <= |canonicalRoute|
      invariant res == Project(avails, canonicalRoute[..i])
    {
      res := AppendRecordRows(res, Lookup(index, canonicalRoute[i]));
      assert canonicalRoute[..i + 1][..i] == canonicalRoute[..i];
      i := i + 1;
    }
    assert canonicalRoute[..i] == canonicalRoute;
    if |airlinesSet| > 0 {
      res := Filter(res, KeepAirline(airlinesSet));
    }
    if |classCodeSet| > 0 {
      res := Filter(res, KeepFare(classCodeSet));
    }
    rows := res;
  }

  // Properties of the projection.

  lemma {:induction false} FareRowsOrigin(a: Availability, fares: seq<Fare>, r: Row)
    requires r in FareRows(a, fares)
    ensures r.fare in fares && Available(a, r.fare) && r == MakeRow(a, r.fare)
  {
    var init := fares[..|fares| - 1];
    if r in FareRows(a, init) {
      FareRowsOrigin(a, init, r);
      assert r.fare in fares by { assert forall x :: x in init ==> x in fares; }
    } else {
      assert fares[|fares| - 1] in fares;
    }
  }

  lemma {:induction false} FareRowsHas(a: Availability, fares: seq<Fare>, fare: Fare)
    requires fare in fares && Available(a, fare)
    ensures MakeRow(a, fare) in FareRows(a, fares)
  {
    var init := fares[..|fares| - 1];
    if fare != fares[|fares| - 1] {
      assert fares == init + [fares[|fares| - 1]];
      assert fare in init;
      FareRowsHas(a, init, fare);
    }
  }

  lemma {:induction false} RecordRowsOrigin(recs: seq<Availability>, r: Row) returns (a: Availability)
    requires r in RecordRows(recs)
    ensures a in recs && r in FareRows(a, FareOrder)
  {
    var init := recs[..|recs| - 1];
    if r in RecordRows(init) {
      a := RecordRowsOrigin(init, r);
      assert a in recs by { assert forall x :: x in init ==> x in recs; }
    } else {
      a := recs[|recs| - 1];
    }
  }

  lemma {:induction false} RecordRowsHas(recs: seq<Availability>, a: Availability, fare: Fare)
    requires a in recs && Available(a, fare)
    ensures MakeRow(a, fare) in RecordRows(recs)
  {
    var init := recs[..|recs| - 1];
    if a == recs[|recs| - 1] {
      FareRowsHas(a, FareOrder, fare);
    } else {
      assert recs == init + [recs[|recs| - 1]];
      assert a in init;
      RecordRowsHas(init, a, fare);
    }
  }

  /**
   * Every projected row comes from a requested leg `legs[k]` and a record `a` on that leg
   * whose class `r.fare` is available; the row carries that record's fields for that class
   * and the label of that leg.
   */
  lemma {:induction false} RowOrigin(avails: seq<Availability>, legs: seq<Leg>, r: Row) returns (k: nat, a: Availability)
    requires r in Project(avails, legs)
    ensures k < |legs| && a in avails && LegOf(a) == legs[k]
    ensures Available(a, r.fare) && r == MakeRow(a, r.fare)
    ensures r.date == a.parsedDate && r.airlines == Airlines(a, r.fare) && r.direct == Direct(a, r.fare)
            && r.freshness == a.computedLastSeen
    ensures r.route == LegLabel(legs[k])
  {
    var init := legs[..|legs| - 1];
    if r in Project(avails, init) {
      k, a := RowOrigin(avails, init, r);
    } else {
      k := |legs| - 1;
      a := RecordRowsOrigin(Group(avails, legs[k]), r);
      GroupSpec(avails, legs[k], a);
      FareRowsOrigin(a, FareOrder, r);
    }
  }

  /** Conversely, every available class of every record on a requested leg yields its row. */
  lemma {:induction false} RowComplete(avails: seq<Availability>, legs: seq<Leg>, a: Availability, fare: Fare)
    requires a in avails && LegOf(a) in legs && Available(a, fare)
    ensures MakeRow(a, fare) in Project(avails, legs)
  {
    var init := legs[..|legs| - 1];
    if LegOf(a) == legs[|legs| - 1] {
      GroupSpec(avails, LegOf(a), a);
      RecordRowsHas(Group(avails, LegOf(a)), a, fare);
    } else {
      assert legs == init + [legs[|legs| - 1]];
      assert LegOf(a) in init;
      RowComplete(avails, init, a, fare);
    }
  }

  /** Rows follow the order of the requested legs; a leg requested twice contributes twice. */
  lemma {:induction false} ProjectAppend(avails: seq<Availability>, legs1: seq<Leg>, legs2: seq<Leg>)
    ensures Project(avails, legs1 + legs2) == Project(avails, legs1) + Project(avails, legs2)
  {
    if legs2 == [] {
      assert legs1 + legs2 == legs1;
    } else {
      var init, last := legs2[..|legs2| - 1], legs2[|legs2| - 1];
      assert (legs1 + legs2)[..|legs1 + legs2| - 1] == legs1 + init;
      assert (legs1 + legs2)[|legs1 + legs2| - 1] == last;
      ProjectAppend(avails, legs1, init);
      var p1, pi, pl := Project(avails, legs1), Project(avails, init), RecordRows(Group(avails, last));
      calc {
        Project(avails, legs1 + legs2);
        Project(avails, legs1 + init) + pl;
        (p1 + pi) + pl;
        p1 + (pi + pl);
        p1 + Project(avails, legs2);
      }
    }
  }

  /** Within a leg, rows follow the input order of the records. */
  lemma {:induction false} RecordRowsAppend(recs1: seq<Availability>, recs2: seq<Availability>)
    ensures RecordRows(recs1 + recs2) == RecordRows(recs1) + RecordRows(recs2)
  {
    if recs2 == [] {
      assert recs1 + recs2 == recs1;
    } else {
      var init, last := recs2[..|recs2| - 1], recs2[|recs2| - 1];
      assert (recs1 + recs2)[..|recs1 + recs2| - 1] == recs1 + init;
      assert (recs1 + recs2)[|recs1 + recs2| - 1] == last;
      RecordRowsAppend(recs1, init);
      var r1, ri, rl := RecordRows(recs1), RecordRows(init), FareRows(last, FareOrder);
      calc {
        RecordRows(recs1 + recs2);
        RecordRows(recs1 + init) + rl;
        (r1 + ri) + rl;
        r1 + (ri + rl);
        r1 + RecordRows(recs2);
      }
    }
  }

  /** The test "class `fare` of record `a` is available". */
  function AvailableIn(a: Availability): Fare -> bool
  {
    (fare: Fare) => Available(a, fare)
  }

  /**
   * Within a record, the rows are exactly the available classes of `fares`, in the order
   * of `fares`, each mapped to its row.
   */
  lemma {:induction false} FareRowsOrder(a: Availability, fares: seq<Fare>)
    ensures |FareRows(a, fares)| == |Filter(fares, AvailableIn(a))|
    ensures forall i :: 0 <= i < |FareRows(a, fares)| ==>
              FareRows(a, fares)[i] == MakeRow(a, Filter(fares, AvailableIn(a))[i])
  {
    if fares != [] {
      var init := fares[..|fares| - 1];
      var last := fares[|fares| - 1];
      FareRowsOrder(a, init);
      assert fares == init + [last];
      FilterAppend(init, [last], AvailableIn(a));
      assert Filter([last], AvailableIn(a)) == (if Available(a, last) then [last] else []) + Filter([], AvailableIn(a));
    }
  }

  /** The number of the four classes of a record that are available. */
  function NumAvailable(a: Availability): nat
  {
    (if Available(a, Y) then 1 else 0) + (if Available(a, W) then 1 else 0)
    + (if Available(a, J) then 1 else 0) + (if Available(a, F) then 1 else 0)
  }

  /** The number of (record on `leg`, available class) pairs in `avails`. */
  function LegCount(avails: seq<Availability>, leg: Leg): nat
  {
    if avails == [] then 0
    else (if LegOf(avails[0]) == leg then NumAvailable(avails[0]) else 0) + LegCount(avails[1..], leg)
  }

  /** The number of (requested leg, record on it, available class) triples. */
  function TripleCount(avails: seq<Availability>, legs: seq<Leg>): nat
  {
    if legs == [] then 0 else TripleCount(avails, legs[..|legs| - 1]) + LegCount(avails, legs[|legs| - 1])
  }

  lemma FareRowsCount(a: Availability)
    ensures |FareRows(a, FareOrder)| == NumAvailable(a)
  {
    assert FareOrder[..3] == [Y, W, F] && [Y, W, F][..2] == [Y, W] && [Y, W][..1] == [Y] && [Y][..0] == [];
    assert |FareRows(a, [Y])| == (if Available(a, Y) then 1 else 0);
    assert |FareRows(a, [Y, W])| == |FareRows(a, [Y])| + (if Available(a, W) then 1 else 0);
    assert |FareRows(a, [Y, W, F])| == |FareRows(a, [Y, W])| + (if Available(a, F) then 1 else 0);
    assert |FareRows(a, FareOrder)| == |FareRows(a, [Y, W, F])| + (if Available(a, J) then 1 else 0);
  }

  lemma {:induction false} LegRowsCount(avails: seq<Availability>, leg: Leg)
    ensures |RecordRows(Group(avails, leg))| == LegCount(avails, leg)
  {
    if avails != [] {
      var a := avails[0];
      LegRowsCount(avails[1..], leg);
      var head := if LegOf(a) == leg then [a] else [];
      assert Group(avails, leg) == head + Group(avails[1..], leg);
      RecordRowsAppend(head, Group(avails[1..], leg));
      if head != [] {
        assert [a][..0] == [];
        assert RecordRows(head) == FareRows(a, FareOrder);
        FareRowsCount(a);
      }
    }
  }

  /**
   * Without selections, there is one row per (requested leg, record on that leg, available
   * class) triple.
   */
  lemma {:induction false} ProjectCount(avails: seq<Availability>, legs: seq<Leg>)
    ensures |Project(avails, legs)| == TripleCount(avails, legs)
  {
    if legs != [] {
      ProjectCount(avails, legs[..|legs| - 1]);
      LegRowsCount(avails, legs[|legs| - 1]);
    }
  }

  /** The fare filter's test is membership of the row's code in the selection. */
  lemma FareMatchIff(fare: Fare, codes: set<string>)
    ensures FareMatch(fare, codes) <==> Code(fare) in codes
  {
    SplitNoSep(Code(fare), ' ');
  }

  /**
   * The airline filter keeps exactly the rows that share an airline with a non-empty
   * selection, keeps everything for an empty one, and never reorders.
   */
  lemma AirlineFilterSpec(rows: seq<Row>, airlineSet: set<string>, r: Row)
    ensures r in AirlineFilter(rows, airlineSet) <==>
              r in rows && (airlineSet == {} || AirlineMatch(r.airlines, airlineSet))
    ensures IsSubseq(AirlineFilter(rows, airlineSet), rows)
  {
    if |airlineSet| > 0 {
      FilterMembership(rows, KeepAirline(airlineSet), r);
      FilterIsSubseq(rows, KeepAirline(airlineSet));
    } else {
      SubseqRefl(rows);
    }
  }

  /**
   * The fare filter keeps exactly the rows whose code is in a non-empty selection, keeps
   * everything for an empty one, and never reorders.
   */
  lemma FareFilterSpec(rows: seq<Row>, codes: set<string>, r: Row)
    ensures r in FareFilter(rows, codes) <==> r in rows && (codes == {} || Code(r.fare) in codes)
    ensures IsSubseq(FareFilter(rows, codes), rows)
  {
    FareMatchIff(r.fare, codes);
    if |codes| > 0 {
      FilterMembership(rows, KeepFare(codes), r);
      FilterIsSubseq(rows, KeepFare(codes));
    } else {
      SubseqRefl(rows);
    }
  }

  /** Filtering only removes rows: the result is an in-order subsequence of the projection. */
  lemma FiltersSubseq(rows: seq<Row>, airlineSet: set<string>, codes: set<string>)
    ensures IsSubseq(FareFilter(AirlineFilter(rows, airlineSet), codes), rows)
    ensures |FareFilter(AirlineFilter(rows, airlineSet), codes)| <= |rows|
  {
    var mid := AirlineFilter(rows, airlineSet);
    AirlineFilterSpec(rows, airlineSet, Row(Timestamp(""), "", "", Y, "", false));
    FareFilterSpec(mid, codes, Row(Timestamp(""), "", "", Y, "", false));
    SubseqTrans(FareFilter(mid, codes), mid, rows);
    SubseqLength(FareFilter(mid, codes), rows);
  }

  /** "NH, UA" shares an airline with {UA}: its second piece strips to "UA". */
  lemma ExampleAirlineMatch(s: string, n: string, p: string, w: string)
    requires n == "NH" && w == "UA" && p == [' '] + w && s == n + [','] + p
    ensures AirlineMatch(s, {w})
  {
    SplitPrefix(n, p, ',');
    SplitNoSep(p, ',');
    StripLeadingSpace(' ', w);
    assert p in Split(s, ',');
  }

  lemma ExampleFareRows(a: Availability)
    requires Available(a, J) && !Available(a, Y) && !Available(a, W) && !Available(a, F)
    ensures FareRows(a, FareOrder) == [MakeRow(a, J)]
  {
    assert FareOrder[..3] == [Y, W, F] && [Y, W, F][..2] == [Y, W] && [Y, W][..1] == [Y] && [Y][..0] == [];
    assert FareRows(a, [Y]) == [];
    assert FareRows(a, [Y, W]) == [];
    assert FareRows(a, [Y, W, F]) == [];
  }

  /**
   * A record on JFK -> HND whose only available class is J, with J airlines "NH, UA",
   * projected over that leg with airline selection {UA} and fare selection {J}, gives
   * exactly one row: class J, airline string "NH, UA".
   */
  lemma OneRecordExample(a: Availability)
    requires LegOf(a) == ("JFK", "HND")
    requires Available(a, J) && !Available(a, Y) && !Available(a, W) && !Available(a, F)
    requires Airlines(a, J) == "NH, UA"
    ensures FareFilter(AirlineFilter(Project([a], [("JFK", "HND")]), {"UA"}), {"J"}) == [MakeRow(a, J)]
    ensures MakeRow(a, J).fare == J && MakeRow(a, J).airlines == "NH, UA"
  {
    ExampleProject(a);
    ExampleFilters(MakeRow(a, J));
  }

  lemma ExampleProject(a: Availability)
    requires LegOf(a) == ("JFK", "HND")
    requires Available(a, J) && !Available(a, Y) && !Available(a, W) && !Available(a, F)
    ensures Project([a], [("JFK", "HND")]) == [MakeRow(a, J)]
  {
    var leg := ("JFK", "HND");
    assert OnLeg(leg)(a);
    assert [a][1..] == [];
    assert Group([a], leg) == [a] + Filter([], OnLeg(leg));
    assert [a][..0] == [];
    ExampleFareRows(a);
    assert RecordRows([a]) == [MakeRow(a, J)];
    assert [leg][..0] == [];
  }

  lemma ExampleFilters(row: Row)
    requires row.airlines == "NH, UA" && row.fare == J
    ensures FareFilter(AirlineFilter([row], {"UA"}), {"J"}) == [row]
  {
    ExampleAirlineFilter(row, "UA");
    ExampleFareFilter(row);
  }

  lemma ExampleAirlineFilter(row: Row, w: string)
    requires row.airlines == "NH, UA" && w == "UA"
    ensures AirlineFilter([row], {w}) == [row]
  {
    ExampleAirlineMatch(row.airlines, "NH", " UA", w);
    assert KeepAirline({w})(row);
    assert [row][1..] == [];
    assert Filter([row], KeepAirline({w})) == [row] + Filter([], KeepAirline({w}));
  }

  lemma ExampleFareFilter(row: Row)
    requires row.fare == J
    ensures FareFilter([row], {"J"}) == [row]
  {
    FareMatchIff(J, {"J"});
    assert "J" in {"J"};
    assert KeepFare({"J"})(row);
    assert [row][1..] == [];
    assert Filter([row], KeepFare({"J"})) == [row] + Filter([], KeepFare({"J"}));
  }
}

/**
 * The records of the seats.aero API client (seats_aero/api.py): routes, availability
 * snapshots with their per-fare-class accessors and labels, route resolution when an
 * availability record is built, and the partner display names.
 */
module Api {
  import opened Wrappers
  import opened Seqs
  import opened PyStrings

  /** The partner programs the dashboard can query, in display order. */
  const Partners: seq<string> :=
    ["aeroplan", "aeromexico", "american", "united", "delta", "emirates", "etihad", "virginatlantic"]

  /** The display name of a partner; any other key is a `KeyError`, modelled as `None`. */
  function PartnerDisplayName(partner: string): (r: Option<string>)
    ensures r.Some? <==> partner in Partners
    ensures r.Some? ==> r.value != ""
  {
    match partner
    case "aeroplan" => Some("Aeroplan")
    case "aeromexico" => Some("Aeromexico")
    case "american" => Some("American Airlines")
    case "united" => Some("United Airlines")
    case "delta" => Some("Delta Airlines")
    case "emirates" => Some("Emirates")
    case "etihad" => Some("Etihad")
    case "virginatlantic" => Some("Virgin Atlantic")
    case _ => None
  }

  /** Different partners are shown under different names. */
  lemma PartnerDisplayNamesDistinct(p: string, q: string)
    requires p in Partners && q in Partners && p != q
    ensures PartnerDisplayName(p) != PartnerDisplayName(q)
  {
  }

  /** A scheduled leg offered by a partner, as the routes endpoint returns it. */
  datatype Route = Route(
    id: string,
    originAirport: string,
    originRegion: string,
    destinationAirport: string,
    destinationRegion: string,
    numDaysOut: int,
    distance: int,
    source: string)

  /** An (origin airport, destination airport) pair. */
  type Leg = (string, string)

  /** The four fare classes: economy, premium economy, business, first. */
  datatype Fare = Y | W | J | F

  /** The one-letter code of a fare class. */
  function Code(fare: Fare): (r: string)
    ensures |r| == 1 && !IsSpace(r[0]) && r[0] != ',' && r[0] != '\n'
    ensures r == "W" <==> fare == W
  {
    match fare
    case Y => "Y"
    case W => "W"
    case J => "J"
    case F => "F"
  }

  lemma CodeInjective(f: Fare, g: Fare)
    requires Code(f) == Code(g)
    ensures f == g
  {
  }

  /** The five per-fare-class fields of a record; each may be JSON null (`None`). */
  datatype FareFields = FareFields(
    available: Option<bool>,
    mileageCost: Option<string>,
    remainingSeats: Option<int>,
    airlines: Option<string>,
    direct: Option<bool>)

  /** The parsed date of a record; parsing the timestamp text is not part of the model. */
  datatype Timestamp = Timestamp(text: string)

  /** A dated availability snapshot for one route, with the resolved route embedded. */
  datatype Availability = Availability(
    id: string,
    routeId: string,
    route: Route,
    date: string,
    parsedDate: Timestamp,
    y: FareFields,
    w: FareFields,
    j: FareFields,
    f: FareFields,
    source: string,
    computedLastSeen: string)

  /** The fields `getattr` reaches for a fare class. */
  function Fields(a: Availability, fare: Fare): FareFields
  {
    match fare
    case Y => a.y
    case W => a.w
    case J => a.j
    case F => a.f
  }

  /** `available(code)`: the stored flag, `False` when it is null. */
  function Available(a: Availability, fare: Fare): (b: bool)
    ensures b <==> Fields(a, fare).available == Some(true)
  {
    Fields(a, fare).available.GetOr(false)
  }

  /** `mileage_cost(code)`: the stored cost, `""` when it is null. */
  function MileageCost(a: Availability, fare: Fare): (r: string)
    ensures Fields(a, fare).mileageCost.None? ==> r == ""
    ensures Fields(a, fare).mileageCost.Some? ==> r == Fields(a, fare).mileageCost.value
  {
    Fields(a, fare).mileageCost.GetOr("")
  }

  /** `remaining_seats(code)`: the stored count, `0` when it is null. */
  function RemainingSeats(a: Availability, fare: Fare): (r: int)
    ensures Fields(a, fare).remainingSeats.None? ==> r == 0
    ensures Fields(a, fare).remainingSeats.Some? ==> r == Fields(a, fare).remainingSeats.value
  {
    Fields(a, fare).remainingSeats.GetOr(0)
  }

  /** `airlines(code)`: the stored comma-joined airline codes, `""` when null. */
  function Airlines(a: Availability, fare: Fare): (r: string)
    ensures Fields(a, fare).airlines.None? ==> r == ""
    ensures Fields(a, fare).airlines.Some? ==> r == Fields(a, fare).airlines.value
  {
    Fields(a, fare).airlines.GetOr("")
  }

  /** `direct(code)`: the stored flag, `False` when it is null. */
  function Direct(a: Availability, fare: Fare): (b: bool)
    ensures b <==> Fields(a, fare).direct == Some(true)
  {
    Fields(a, fare).direct.GetOr(false)
  }

  /** The airline codes named in one comma-joined string: stripped pieces, empty ones dropped. */
  function AirlineSet(s: string): set<string>
  {
    set p | p in Split(s, ',') && Strip(p) != "" :: Strip(p)
  }

  /** Every member of an airline set is a non-empty, already stripped code taken from the string. */
  lemma AirlineSetClean(s: string, x: string)
    requires x in AirlineSet(s)
    ensures x != "" && Strip(x) == x
    ensures exists p :: p in Split(s, ',') && Strip(p) == x
  {
    var p :| p in Split(s, ',') && Strip(p) != "" && Strip(p) == x;
    StripIdempotent(p);
  }

  /** The empty code is never in an airline set. */
  lemma AirlineSetNoEmpty(s: string)
    ensures "" !in AirlineSet(s)
  {
  }

  /** A comma-free piece whose strip is non-empty is in the set. */
  lemma AirlineSetHas(s: string, p: string)
    requires p in Split(s, ',') && Strip(p) != ""
    ensures Strip(p) in AirlineSet(s)
  {
  }

  /** The airline set of one fare class of `a`, as a function of the class. */
  function ClassAirlines(a: Availability): Fare -> set<string>
  {
    fare => AirlineSet(Airlines(a, fare))
  }

  /** The union of the airline sets of the fare classes in `fares`. */
  function AirlinesOver(a: Availability, fares: seq<Fare>): set<string>
  {
    UnionOver(fares, ClassAirlines(a))
  }

  /**
   * `all_airlines()`: every airline code mentioned for any of the four fare classes.
   * The loop over Y, W, J, F adds each class's stripped, non-empty pieces to `res`.
   */
  method AllAirlines(a: Availability) returns (res: set<string>)
    ensures res == AirlineSet(Airlines(a, Y)) + AirlineSet(Airlines(a, W))
                 + AirlineSet(Airlines(a, J)) + AirlineSet(Airlines(a, F))
    ensures "" !in res
  {
    var codes := [Y, W, J, F];
    res := {};
    var i := 0;
    while i < |codes|
      invariant 0 <= i <= |codes|
      invariant res == AirlinesOver(a, codes[..i])
    {
      res := res + AirlineSet(Airlines(a, codes[i]));
      assert codes[..i + 1][..i] == codes[..i];
      assert ClassAirlines(a)(codes[i]) == AirlineSet(Airlines(a, codes[i]));
      i := i + 1;
    }
    assert codes[..4] == codes;
    AirlinesOverAll(a);
    AirlineSetNoEmpty(Airlines(a, Y));
    AirlineSetNoEmpty(Airlines(a, W));
    AirlineSetNoEmpty(Airlines(a, J));
    AirlineSetNoEmpty(Airlines(a, F));
  }

  /** The union over Y, W, J, F, written out. */
  lemma AirlinesOverAll(a: Availability)
    ensures AirlinesOver(a, [Y, W, J, F]) == AirlineSet(Airlines(a, Y)) + AirlineSet(Airlines(a, W))
                                             + AirlineSet(Airlines(a, J)) + AirlineSet(Airlines(a, F))
  {
    var sy, sw := AirlineSet(Airlines(a, Y)), AirlineSet(Airlines(a, W));
    var sj, sf := AirlineSet(Airlines(a, J)), AirlineSet(Airlines(a, F));
    assert [Y][..0] == [];
    assert AirlinesOver(a, [Y]) == {} + sy == sy;
    assert [Y, W][..1] == [Y];
    assert AirlinesOver(a, [Y, W]) == sy + sw;
    assert [Y, W, J][..2] == [Y, W];
    assert AirlinesOver(a, [Y, W, J]) == sy + sw + sj;
    assert [Y, W, J, F][..3] == [Y, W, J];
  }

  /** The `"code: (airlines)"` line for one fare class. */
  function AirlineLine(a: Availability, fare: Fare): string
  {
    Code(fare) + ": (" + Airlines(a, fare) + ")"
  }

  /** The lines for the classes in `fares` whose airline string is non-empty, in order. */
  function AirlineLines(a: Availability, fares: seq<Fare>): seq<string>
  {
    if fares == [] then []
    else (if Airlines(a, fares[0]) != "" then [AirlineLine(a, fares[0])] else [])
         + AirlineLines(a, fares[1..])
  }

  /** `airline_str()`: the lines for Y, J and F (never W), joined by newlines. */
  function AirlineStr(a: Availability): string
  {
    Join(AirlineLines(a, [Y, J, F]), "\n")
  }

  /** `fare_code_str()`: the codes among Y, J, F (never W) whose class is available, space-joined. */
  function FareCodeStr(a: Availability): string
  {
    Join(FareCodes(a, [Y, J, F]), " ")
  }

  /** The codes of the classes in `fares` that are available, in order. */
  function FareCodes(a: Availability, fares: seq<Fare>): seq<string>
  {
    if fares == [] then []
    else (if Available(a, fares[0]) then [Code(fares[0])] else []) + FareCodes(a, fares[1..])
  }

  lemma {:induction false} FareCodesMember(a: Availability, fares: seq<Fare>, fare: Fare)
    ensures Code(fare) in FareCodes(a, fares) <==> fare in fares && Available(a, fare)
    ensures forall i :: 0 <= i < |FareCodes(a, fares)| ==> |FareCodes(a, fares)[i]| == 1
  {
    if fares != [] {
      FareCodesMember(a, fares[1..], fare);
      assert fares == [fares[0]] + fares[1..];
      if Code(fare) == Code(fares[0]) {
        CodeInjective(fare, fares[0]);
      }
    }
  }

  /**
   * Reading the space-separated fare string back gives exactly the available classes
   * among Y, J and F; W never appears, even when it is available.
   */
  lemma FareCodeStrCodes(a: Availability, fare: Fare)
    ensures Code(fare) in Split(FareCodeStr(a), ' ') <==> fare != W && Available(a, fare)
  {
    var codes := FareCodes(a, [Y, J, F]);
    FareCodesMember(a, [Y, J, F], fare);
    if codes == [] {
      assert FareCodeStr(a) == "";
      assert Split("", ' ') == [""];
    } else {
      forall i | 0 <= i < |codes| ensures ' ' !in codes[i] {
        assert |codes[i]| == 1;
        assert codes[i] in codes;
        assert codes[i] == "Y" || codes[i] == "J" || codes[i] == "F" || codes[i] == "W" by {
          FareCodesShape(a, [Y, J, F], i);
        }
      }
      SplitJoin(codes, ' ');
    }
  }

  lemma {:induction false} FareCodesShape(a: Availability, fares: seq<Fare>, i: int)
    requires 0 <= i < |FareCodes(a, fares)|
    ensures exists g :: g in fares && FareCodes(a, fares)[i] == Code(g)
  {
    var head := if Available(a, fares[0]) then [Code(fares[0])] else [];
    if i < |head| {
      assert fares[0] in fares;
    } else {
      FareCodesShape(a, fares[1..], i - |head|);
      var g :| g in fares[1..] && FareCodes(a, fares[1..])[i - |head|] == Code(g);
      assert g in fares;
    }
  }

  /** The fare string is empty exactly when none of Y, J, F is available. */
  lemma FareCodeStrEmpty(a: Availability)
    ensures FareCodeStr(a) == "" <==> !Available(a, Y) && !Available(a, J) && !Available(a, F)
  {
    var codes := FareCodes(a, [Y, J, F]);
    FareCodesMember(a, [Y, J, F], Y);
    FareCodesMember(a, [Y, J, F], J);
    FareCodesMember(a, [Y, J, F], F);
    if codes != [] {
      assert |codes[0]| == 1;
      JoinNonEmpty(codes, " ");
      FareCodesShape(a, [Y, J, F], 0);
      var g :| g in [Y, J, F] && codes[0] == Code(g);
      FareCodesMember(a, [Y, J, F], g);
    }
  }

  /** Joining a non-empty list whose first piece is non-empty gives a non-empty string. */
  lemma JoinNonEmpty(parts: seq<string>, sep: string)
    requires parts != [] && parts[0] != ""
    ensures Join(parts, sep) != ""
  {
    if |parts| > 1 {
      assert Join(parts, sep) == parts[0] + sep + Join(parts[1..], sep);
    }
  }

  lemma {:induction false} AirlineLinesShape(a: Availability, fares: seq<Fare>, i: int)
    requires 0 <= i < |AirlineLines(a, fares)|
    ensures exists g :: g in fares && Airlines(a, g) != "" && AirlineLines(a, fares)[i] == AirlineLine(a, g)
  {
    var head := if Airlines(a, fares[0]) != "" then [AirlineLine(a, fares[0])] else [];
    if i < |head| {
      assert fares[0] in fares;
    } else {
      AirlineLinesShape(a, fares[1..], i - |head|);
      var g :| g in fares[1..] && Airlines(a, g) != "" && AirlineLines(a, fares[1..])[i - |head|] == AirlineLine(a, g);
      assert g in fares;
    }
  }

  lemma {:induction false} AirlineLinesMember(a: Availability, fares: seq<Fare>, fare: Fare)
    ensures AirlineLine(a, fare) in AirlineLines(a, fares) <==> fare in fares && Airlines(a, fare) != ""
  {
    if fares != [] {
      AirlineLinesMember(a, fares[1..], fare);
      assert fares == [fares[0]] + fares[1..];
      if AirlineLine(a, fare) == AirlineLine(a, fares[0]) {
        assert AirlineLine(a, fare)[0] == Code(fare)[0];
        assert AirlineLine(a, fares[0])[0] == Code(fares[0])[0];
        CodeInjective(fare, fares[0]);
      }
    }
  }

  /** The airline string is empty exactly when Y, J and F all have empty airline strings. */
  lemma AirlineStrEmpty(a: Availability)
    ensures AirlineStr(a) == "" <==> Airlines(a, Y) == "" && Airlines(a, J) == "" && Airlines(a, F) == ""
  {
    var lines := AirlineLines(a, [Y, J, F]);
    AirlineLinesMember(a, [Y, J, F], Y);
    AirlineLinesMember(a, [Y, J, F], J);
    AirlineLinesMember(a, [Y, J, F], F);
    if lines != [] {
      AirlineLinesShape(a, [Y, J, F], 0);
      JoinNonEmpty(lines, "\n");
    }
  }

  /**
   * When no airline string holds a newline, splitting the airline string on newlines gives
   * one `"code: (airlines)"` line exactly for each of Y, J, F with a non-empty airline
   * string; W never has a line. When all three are empty the string is `""`, whose one
   * piece is `""`, which is no class's line.
   */
  lemma AirlineStrLines(a: Availability, fare: Fare)
    requires forall g :: '\n' !in Airlines(a, g)
    ensures AirlineLine(a, fare) in Split(AirlineStr(a), '\n') <==> fare != W && Airlines(a, fare) != ""
  {
    var lines := AirlineLines(a, [Y, J, F]);
    AirlineLinesMember(a, [Y, J, F], fare);
    assert fare in [Y, J, F] <==> fare != W;
    if AirlineStr(a) == "" {
      AirlineStrEmpty(a);
      assert Split(AirlineStr(a), '\n') == [""];
      assert AirlineLine(a, fare) != "";
    } else {
      AirlineLinesNoNewline(a, [Y, J, F]);
      assert lines != [];
      SplitJoin(lines, '\n');
    }
  }

  /** Lines built from newline-free airline strings hold no newline. */
  lemma AirlineLinesNoNewline(a: Availability, fares: seq<Fare>)
    requires forall g :: '\n' !in Airlines(a, g)
    ensures forall i :: 0 <= i < |AirlineLines(a, fares)| ==> '\n' !in AirlineLines(a, fares)[i]
  {
    forall i | 0 <= i < |AirlineLines(a, fares)|
      ensures '\n' !in AirlineLines(a, fares)[i]
    {
      AirlineLinesShape(a, fares, i);
      var g :| g in fares && Airlines(a, g) != "" && AirlineLines(a, fares)[i] == AirlineLine(a, g);
      assert '\n' !in Airlines(a, g);
      assert '\n' !in Code(g);
    }
  }

  /** The leg a record belongs to: its route's origin and destination airports. */
  function LegOf(a: Availability): Leg
  {
    (a.route.originAirport, a.route.destinationAirport)
  }

  /** The chart label of a leg: `"origin -> destination"`. */
  function LegLabel(leg: Leg): string
  {
    leg.0 + " -> " + leg.1
  }

  /** `route_str()`: the label of the record's leg. */
  function RouteStr(a: Availability): (r: string)
    ensures r == LegLabel(LegOf(a))
  {
    a.route.originAirport + " -> " + a.route.destinationAirport
  }

  /** Labels tell legs apart as long as origin codes contain no space. */
  lemma LegLabelInjective(l1: Leg, l2: Leg)
    requires ' ' !in l1.0 && ' ' !in l2.0
    requires LegLabel(l1) == LegLabel(l2)
    ensures l1 == l2
  {
    var s := LegLabel(l1);
    assert s[|l1.0|] == ' ' && s[|l2.0|] == ' ';
    if |l1.0| < |l2.0| {
      assert false;
    } else if |l2.0| < |l1.0| {
      assert false;
    }
    assert l1.0 == s[..|l1.0|] == l2.0;
    assert l1.1 == s[|l1.0| + 4..] == l2.1;
  }

  /** The fields of one JSON availability object, the route still given by its id. */
  datatype RawAvailability = RawAvailability(
    id: string,
    routeId: string,
    date: string,
    parsedDate: Timestamp,
    y: FareFields,
    w: FareFields,
    j: FareFields,
    f: FareFields,
    source: string,
    computedLastSeen: string)

  /** Why building a record failed: its route id is not a key of the route map. */
  datatype ApiError = UnknownRoute(routeId: string)

  /**
   * `Availability.from_dict`: resolves the route id through `routeMap` (a `KeyError` when
   * it is missing) and copies every other field.
   */
  function FromDict(raw: RawAvailability, routeMap: map<string, Route>): (r: Result<Availability, ApiError>)
    ensures r.Ok? <==> raw.routeId in routeMap
    ensures r.Err? ==> r.error == UnknownRoute(raw.routeId)
    ensures r.Ok? ==> r.value.route == routeMap[raw.routeId] && r.value.routeId == raw.routeId
    ensures r.Ok? ==> r.value.id == raw.id && r.value.date == raw.date && r.value.parsedDate == raw.parsedDate
                      && r.value.y == raw.y && r.value.w == raw.w && r.value.j == raw.j && r.value.f == raw.f
                      && r.value.source == raw.source && r.value.computedLastSeen == raw.computedLastSeen
  {
    if raw.routeId !in routeMap then Err(UnknownRoute(raw.routeId))
    else Ok(Availability(raw.id, raw.routeId, routeMap[raw.routeId], raw.date, raw.parsedDate,
                         raw.y, raw.w, raw.j, raw.f, raw.source, raw.computedLastSeen))
  }

  /**
   * The comprehension in `Availability.fetch` that builds every record: the first record
   * with an unknown route id aborts the whole batch; otherwise one record per object, in order.
   */
  function FromDicts(raws: seq<RawAvailability>, routeMap: map<string, Route>): (r: Result<seq<Availability>, ApiError>)
    ensures r.Ok? <==> forall i :: 0 <= i < |raws| ==> raws[i].routeId in routeMap
    ensures r.Ok? ==> |r.value| == |raws|
    ensures r.Ok? ==> forall i :: 0 <= i < |raws| ==> Ok(r.value[i]) == FromDict(raws[i], routeMap)
    ensures r.Err? ==> exists i :: 0 <= i < |raws| && r.error == UnknownRoute(raws[i].routeId)
                                   && raws[i].routeId !in routeMap
                                   && forall j :: 0 <= j < i ==> raws[j].routeId in routeMap
  {
    if raws == [] then Ok([])
    else
      match FromDict(raws[0], routeMap)
      case Err(e) => Err(e)
      case Ok(a) =>
        match FromDicts(raws[1..], routeMap)
        case Err(e) =>
          var tail := raws[1..];
          var k :| 0 <= k < |tail| && e == UnknownRoute(tail[k].routeId) && tail[k].routeId !in routeMap
                   && forall j :: 0 <= j < k ==> tail[j].routeId in routeMap;
          assert raws[k + 1] == tail[k];
          assert forall j :: 0 <= j < k + 1 ==> raws[j].routeId in routeMap by {
            forall j | 0 <= j < k + 1
              ensures raws[j].routeId in routeMap
            {
              if j > 0 {
                assert raws[j] == tail[j - 1];
              }
            }
          }
          Err(e)
        case Ok(rest) => Ok([a] + rest)
  }
}

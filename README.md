# seats-aero-viz route and availability pipeline, in Dafny

This project models the logic of the seats.aero availability visualiser.

- **Route parsing.** The dashboard script turns a free-text route such as
  `"JFK->HND->BKK, HND->JFK"` into airport-pair legs. It removes spaces, rewrites `->` to
  `-`, splits on commas and then on dashes, and pairs consecutive stops. Each endpoint is
  expanded through a country table or a city table, and the cross product of the two
  expansions is emitted.
- **Leg filter.** It keeps the legs for which records were fetched.
- **Airline options.** It collects the airline codes offered in the airline selector.
- **Availability records** (`seats_aero/api.py`). These have per-fare-class accessors that
  default null fields. Their airline set, fare-code string, airline string and leg label
  are derived from those fields. Building a record resolves its route id.
- **Chart rows** (`seats_aero/plot.py`). The records are indexed by leg. The requested
  legs are walked leg by leg, record by record and fare class by fare class (Y, W, F, J).
  One row is emitted per available class. The rows are then filtered by the selected
  airlines and fare classes.

Files:

- `wrappers.dfy` (`Wrappers`): `Option` and `Result`.
- `seqs.dfy` (`Seqs`): order-preserving `Filter`, the subsequence relation and unions over
  a sequence, with their lemmas.
- `pystrings.dfy` (`PyStrings`): Python's `str.split`, `str.join`, `str.strip` and
  `str.replace` with Python's semantics. For example, `"".split(",") == [""]`, `strip`
  removes exactly the `str.isspace` characters, and `replace` rewrites non-overlapping
  occurrences left to right.
- `api.dfy` (`Api`): routes, availability records and their accessors and labels, record
  construction, and partner names.
- `plot.dfy` (`Plot`): `get_route_df` as a method over three loops, proved equal to the
  specification functions `Project`, `AirlineFilter` and `FareFilter`.
- `dashboard.dfy` (`Dashboard`): `expand_code`, `expand_route`, `canonicalize_route`, the
  leg filter, the airline-option loop and the call that links them.

The loops of the source (`canonicalize_route`, `expand_route`, the airline-option loop,
`all_airlines`, the leg index and the row loops of `get_route_df`) are methods. Each loop
invariant ties the partial result to a specification function, and that function's
properties are proved as lemmas. Most of these functions recurse on the last element, so
one loop step is one unfolding. The leg index is the exception: its invariant is stated
over `Group`, an instance of `Seqs.Filter`, which recurses on the first element. The step
lemma `Plot.GroupAppend` bridges the two.

## Model

| member | source | states |
|---|---|---|
| `Dashboard.ExpandCode` | main.py:114-119 | The country entry when country expansion is on and the code is a country key. Otherwise the city entry when city expansion is on and the code is a city key. Otherwise `[code]`. |
| `Dashboard.CountryBeforeCity` | main.py:115-118 | A code in both tables expands through the country table when both expansions are on. |
| `Dashboard.ExpandCodeOff` | main.py:114-119 | With both expansions off, every code expands to `[code]`. |
| `Dashboard.ProductLength` | main.py:106-109 | `itertools.product` of the two expansions has `|xs| * |ys|` pairs. |
| `Dashboard.ProductAt` | main.py:106-109 | Pair `(xs[i], ys[j])` sits at position `i * |ys| + j`: origin order first, then destination order. |
| `Dashboard.ExpandRoute` | main.py:100-111 | The loop result equals `ExpandLegs`, the concatenation of each raw pair's product, in input-pair order. |
| `Dashboard.ExpandLegsAppend` | main.py:104-110 | Expansion distributes over concatenation, so the output follows the order of the input pairs. |
| `Dashboard.ExpandLegsLength` | main.py:100-111 | The output length is the sum over input pairs of `|expand(org)| * |expand(dest)|`. |
| `Dashboard.ExpandLegsIdentity` | main.py:100-111 | With both flags off, the raw pairs come back unchanged. |
| `Dashboard.Pairs` | main.py:96 | `zip(stops[:-1], stops[1:])` has `k - 1` pairs for `k >= 1` stops, and pair `i` is `(stops[i], stops[i+1])`. |
| `Dashboard.ClausePairs` | main.py:95-96 | A clause with `n` dashes yields exactly `n` pairs. A clause without a dash yields none. |
| `Dashboard.Normalize` | main.py:91 | The normalised text has no space. Every character other than space, `-` and `>` keeps its count. |
| `Dashboard.ClauseCount` | main.py:91-92 | The normalised text splits into one clause per comma of the input, plus one. |
| `Dashboard.CanonicalizeRoute` | main.py:88-97 | The loop result equals `Canonical`: normalise, split on commas, concatenate the consecutive-stop pairs of each clause, then expand. |
| `Dashboard.CanonicalExample` | main.py:88-97 | `"JFK->HND->BKK,HND->JFK"` with both flags off gives `[(JFK,HND),(HND,BKK),(HND,JFK)]`. |
| `Dashboard.CountryExample` | main.py:88-119 | `"US-LHR"` with country expansion on and `US -> [JFK, LAX]` gives `[(JFK,LHR),(LAX,LHR)]`. |
| `Dashboard.PossibleLegs` | main.py:49-51 | Every record's leg is in the set, and every leg of the set comes from some record. |
| `Dashboard.FilterLegsSpec` | main.py:125-127 | Of `FilterLegs`, the comprehension: a leg is kept iff it is a canonical leg and some record serves it. The kept legs are an in-order subsequence of the canonical legs. |
| `Dashboard.AirlinesOfAllMember` | main.py:53-59 | A code is collected iff some fare class of some record lists it among its stripped, non-empty comma-pieces. |
| `Dashboard.CollectAirlines` | main.py:53-59 | The nested loop collects exactly the stripped, non-empty comma-pieces of every class's airline string of every record, and never the empty string. |
| `Dashboard.SwappedFlagsExpandCountry` | main.py:124 | Of `SelectedLegsAsWritten`, the call with the boxes swapped: as written, with "Expand country" off and "Expand city" on, `"US-LHR"` is still expanded through the country table. |
| `Dashboard.SelectedLegsHonourBoxes` | main.py:76-85 | Of `SelectedLegs`, the corrected call: with each box passed to the flag it names, a box that is off makes its table irrelevant to the legs. |
| `Dashboard.IntendedFlagsKeepCountry` | main.py:124 | With the flags passed as named, "Expand country" off leaves `"US-LHR"` as the single leg `(US,LHR)` when neither code is a city. |
| `Dashboard.ChartRows` | main.py:124-129 | The rows the program shows: the airline- and fare-filtered projection of those legs of `SelectedLegsAsWritten` (the boxes swapped, as at main.py:124) that some record serves. |
| `Dashboard.ChartRowsIntended` | main.py:124-129 | The same pipeline over `SelectedLegs`, with each box passed to the flag it names. |
| `Api.PartnerDisplayName` | seats_aero/api.py:9-31 | Defined (a `Some`) exactly for the eight partners, with a non-empty name. Any other key fails. |
| `Api.Code` | seats_aero/api.py:229-236 | A fare code is one character that is neither whitespace, comma nor newline, and it is `"W"` exactly for W. |
| `Api.PartnerDisplayNamesDistinct` | seats_aero/api.py:9-31 | Different partners get different display names, so the partner selector's labels tell partners apart. |
| `Api.CodeInjective` | seats_aero/api.py:229-236 | Different fare classes have different codes. |
| `Api.Available` | seats_aero/api.py:148-150 | True exactly when the stored flag is `True`. A null flag reads as `False`. |
| `Api.MileageCost` | seats_aero/api.py:152-154 | The stored cost, or `""` when null. |
| `Api.RemainingSeats` | seats_aero/api.py:156-158 | The stored seat count, or `0` when null. |
| `Api.Airlines` | seats_aero/api.py:160-162 | The stored airline string, or `""` when null. |
| `Api.Direct` | seats_aero/api.py:164-166 | True exactly when the stored flag is `True`. A null flag reads as `False`. |
| `Api.AirlineSetClean` | seats_aero/api.py:171-175 | Of `AirlineSet`, one class's comprehension: every collected code is non-empty and already stripped, and is the strip of some comma-piece. |
| `Api.AirlineSetHas` | seats_aero/api.py:171-175 | In `AirlineSet`, every comma-piece with a non-empty strip contributes its strip. |
| `Api.AllAirlines` | seats_aero/api.py:168-176 | The loop result is the union over Y, W, J, F of the classes' airline sets, and never holds `""`. |
| `Api.FareCodeStrCodes` | seats_aero/api.py:235-236 | A class's code is among the space-pieces of `FareCodeStr` (`fare_code_str`) iff the class is not W and is available. |
| `Api.FareCodesMember` | seats_aero/api.py:235-236 | A code is in the joined list iff its class is among the walked classes and is available. Each entry is one character. |
| `Api.FareCodeStrEmpty` | seats_aero/api.py:235-236 | `fare_code_str` is empty iff none of Y, J, F is available. |
| `Api.AirlineLinesMember` | seats_aero/api.py:226-233 | A class's `"code: (airlines)"` line is present iff the class is walked and its airline string is non-empty. |
| `Api.AirlineStrEmpty` | seats_aero/api.py:226-233 | `AirlineStr` (`airline_str`) is empty iff Y, J and F all have empty airline strings. |
| `Api.AirlineStrLines` | seats_aero/api.py:226-233 | When no airline string holds a newline, the newline-pieces of `airline_str` contain a class's line iff the class is not W and its airline string is non-empty. This includes a record whose Y, J and F strings are all empty: its one piece is `""`, which is no line. |
| `Api.RouteStr` | seats_aero/api.py:238-239 | The label is the leg label `origin + " -> " + destination` of the record's route. |
| `Api.LegLabelInjective` | seats_aero/api.py:238-239 | For origins without spaces, different legs have different labels. |
| `Api.FromDict` | seats_aero/api.py:179-210 | Succeeds iff the route id is a key of the route map. On success, `route` is the map's entry, `route_id` the raw id and the other fields are copied. On failure, the error names the unknown id. |
| `Api.FromDicts` | seats_aero/api.py:221-224 | Succeeds iff every route id resolves. The records then match the raw entries one by one. Otherwise the error names the first unresolved id: every earlier id resolves. |
| `Plot.GroupSpec` | seats_aero/plot.py:17-25 | A leg's list holds exactly the records on that leg, as an in-order subsequence of the input. |
| `Plot.GroupAppend` | seats_aero/plot.py:23-25 | Appending a record extends only its own leg's list, at the end. |
| `Plot.BuildIndex` | seats_aero/plot.py:17-25 | After the loop each leg's lookup is its group. A leg is a key iff it has records, and a missing leg reads as `[]`. |
| `Plot.SetOf` | seats_aero/plot.py:15-16 | `set(xs)` holds exactly the elements of `xs`. |
| `Plot.AppendFareRows` | seats_aero/plot.py:29-41 | The fare loop appends one row per available class of the record, in the order Y, W, F, J. |
| `Plot.AppendRecordRows` | seats_aero/plot.py:28-41 | The record loop appends the rows of each of the leg's records, in order. |
| `Plot.GetRouteDf` | seats_aero/plot.py:9-55 | The result equals the projection of the requested legs, filtered by the airline set and then by the fare set. |
| `Plot.FareRowsOrigin` | seats_aero/plot.py:29-41 | Every row of a record (`FareRows`) is `MakeRow`, the dictionary of plot.py:32-41, of one of the walked classes that is available. |
| `Plot.FareRowsHas` | seats_aero/plot.py:29-41 | Every walked available class of a record yields its row. |
| `Plot.RowOrigin` | seats_aero/plot.py:27-41 | Every row of `Project`, the three nested loops, comes from a requested leg and a record on it whose class is available. Its date, route label, airlines, freshness and direct flag are that record's. |
| `Plot.RowComplete` | seats_aero/plot.py:27-41 | Every available class of every record on a requested leg yields a row. |
| `Plot.ProjectAppend` | seats_aero/plot.py:27 | Rows follow the order of the requested legs. |
| `Plot.RecordRowsAppend` | seats_aero/plot.py:28 | Within a leg, rows follow the input order of the records. |
| `Plot.FareRowsOrder` | seats_aero/plot.py:29-31 | A record's rows are exactly its available classes, in fare order. |
| `Plot.FareRowsCount` | seats_aero/plot.py:29-31 | A record contributes as many rows as it has available classes. |
| `Plot.LegRowsCount` | seats_aero/plot.py:28-31 | A leg contributes the sum of the available-class counts of its records. |
| `Plot.ProjectCount` | seats_aero/plot.py:27-31 | The unfiltered row count is the number of (requested leg, record on it, available class) triples. A repeated leg counts again. |
| `Plot.FareMatchIff` | seats_aero/plot.py:53 | A class matches a fare selection iff its code is selected. |
| `Plot.AirlineFilterSpec` | seats_aero/plot.py:42-51 | Of `AirlineFilter`: a row is kept iff the selection is empty or some stripped comma-piece of its airlines is selected. The kept rows are an in-order subsequence. |
| `Plot.FareFilterSpec` | seats_aero/plot.py:52-53 | Of `FareFilter`: a row is kept iff the selection is empty or its fare code is selected. The kept rows are an in-order subsequence. |
| `Plot.FiltersSubseq` | seats_aero/plot.py:42-53 | The two filters together only remove rows, and keep the order. |
| `Plot.OneRecordExample` | seats_aero/plot.py:9-55 | A JFK-HND record with only J available, J airlines "NH, UA", airline selection {UA} and fare selection {J} gives exactly its one J row. |
| `Seqs.FilterMembership` | main.py:125-127 | An element is kept by a filter iff it occurs and passes the test. |
| `Seqs.FilterIsSubseq` | seats_aero/plot.py:42-53 | A filter's result is an in-order subsequence of its input. |
| `Seqs.UnionOverMember` | seats_aero/api.py:170-175 | An element is in a union over a sequence iff some element of the sequence contributes it. |
| `PyStrings.Split` | main.py:92 | `str.split(sep)` yields one more piece than there are separators, and no piece holds the separator. |
| `PyStrings.JoinSplit` | seats_aero/api.py:227 | Joining the pieces of a split with the separator gives back the string. |
| `PyStrings.SplitJoin` | seats_aero/api.py:227 | Splitting a join of separator-free pieces gives back the pieces. |
| `PyStrings.Strip` | seats_aero/api.py:172-174 | `str.strip()` is a slice with only whitespace outside it and no whitespace at its ends. |
| `PyStrings.StripIdempotent` | seats_aero/api.py:172-174 | Stripping twice is stripping once. |
| `PyStrings.Replace` | main.py:91 | `str.replace` keeps the count of every character that is in neither the pattern nor the replacement. |
| `PyStrings.ReplaceRemoves` | main.py:91 | Replacing a character by `""` leaves no occurrence of it. |

## Left out

- HTTP fetching (`Route.fetch`, `Availability.fetch`), `streamlit.secrets` and `json.loads`: I/O and library parsing. `FromDicts` models the list comprehension over already-decoded entries.
- `datetime.strptime` of `ParsedDate`: a record's parsed date is an opaque `Timestamp` value carried through to the rows.
- `Route.from_dict` and `Route.from_json`: field-by-field copying, which is just the `Route` constructor here.
- The expansion tables of `seats_aero.airport`. That module is not part of this model, so the country and city tables are parameters of type `map<string, seq<string>>`.
- Streamlit widgets, caching, the Altair chart and the `humanize` captions. The checkbox and selection values are parameters of `ChartRows`, and `.upper()` of the route text at main.py:37 is not modelled.
- `pd.DataFrame` construction: the result of `get_route_df` is a sequence of `Row` values.
- src/plot.py: an older chart builder, not part of this model.
- The import at main.py:12 names `partners` and `partners_mapping`, but api.py defines `PARTNERS` and `partner_to_display_name`. The model uses the api.py names.
- Accessors: the fare class is a `Fare` value, so a code outside Y, W, J, F, which makes `getattr` raise in Python, cannot be expressed.
- Normalize: only `' '` is removed before `->` is rewritten, as `replace(" ", "")` at main.py:91 does, so tabs and other non-space whitespace survive normalisation.
- Replace: modelled only for a non-empty pattern, which is all the source uses (`" "` and `"->"`).

## Findings

| source | as written | input that shows it | evidently intended | confidence | as-written member | corrected member |
|---|---|---|---|---|---|---|
| main.py:124 | `canonicalize_route(route, expand_city, expand_country)` passes the "Expand city" box as the country flag and the "Expand country" box as the city flag (signature at main.py:88-89). | "Expand country" off, "Expand city" on, route `"US-LHR"`, country table `US -> [JFK, LAX]`: the route is still expanded to `(JFK,LHR), (LAX,LHR)`. | Each box drives the expansion it names, so `"US-LHR"` stays `(US,LHR)` when US and LHR are not city keys. | not executed | `Dashboard.SwappedFlagsExpandCountry` | `Dashboard.IntendedFlagsKeepCountry` |

The as-written call is `Dashboard.SelectedLegsAsWritten`, and `Dashboard.ChartRows`
gives the rows the program shows with it. The corrected call, `Dashboard.SelectedLegs`,
is the one `Dashboard.ChartRowsIntended` uses, and `Dashboard.SelectedLegsHonourBoxes`
proves that each box switches its own table.

# historical-rents scraper, modelled in Dafny

`scraper.py` scrapes the currently advertised apartments of four configured
buildings, filters them by bedroom count, and prints them either as text (one
line per unit, then the mean rent per square foot for each unit size) or as
CSV rows. Two building adapters turn a remote document into `Apartment`
records: Avalon walks a JSON reply (floor-plan types, floor plans, finish
packages, apartments), and Equity finds the line of an HTML page that assigns
`<ident>.unitAvailability = {...}`, decodes that fragment, and walks bedroom
types and their available units.

The model follows the program's structure:

| file | module | what it holds |
|---|---|---|
| `wrappers.dfy`, `errors.dfy` | `Wrappers`, `Errors` | `Option`/`Result`, and the Python exceptions the program can raise |
| `apartment.dfy` | `Listing` | the `Apartment` record and `per_sq_ft` |
| `unit_order.dfy` | `UnitOrder` | `sorted(..., key=lambda x: x.unit)`: a stable sort under string order |
| `avalon.dfy` | `Avalon` | the decoded ApartmentSearch reply and the `Avalon.apartments` traversal |
| `info_pattern.dfy` | `InfoPattern` | a recogniser for `Equity._INFO_PATTERN`, proved equal to the regular expression |
| `equity.dfy` | `Equity` | line splitting, `Equity._info`'s line search (a method with a loop) and the `Equity.apartments` traversal |
| `pipeline.dfy` | `Pipeline` | one building's body of `main`: bed filter, CSV rows or text lines, `by_size`, and the size summary |
| `scraper.dfy` | `Scraper` | `BUILDINGS`, `_maybe_print_buildings`, `_check_beds`, the building selection and `main` as a whole |

Each loop of the program is a Dafny `method` with a `for`/`while` loop proved
equal to a specification function: `FindInfo` to `FirstMatch`, which recurses
from the first line; `PrintBuildings` to the comprehension `Names`;
`ApartmentLoop` to the comprehension `CsvRows` in CSV mode and to recursive
functions over the survivors in text mode; and `SummaryLoop` and `Run` to
recursive functions over the sorted sizes and the selected buildings. The properties the
program promises are lemmas about those functions. Generators and comprehensions are
functions.

What the program prints is a sequence of `Pipeline.Line` values (header,
unit line carrying the apartment and its rent per square foot, size line
carrying the size and its mean rent per square foot, blank line, CSV row,
listing lines, the "Unable to get info" message). How it ends is a
`Scraper.Exit`: normal completion, the bedroom-bound error exit, or an
uncaught exception (`Errors.Error`). The network and the JSON decoder are the
three function-valued fields of `Scraper.Net`: the decoded Avalon reply for
a community code, the text of a page, and the decoding of an Equity
fragment. Each may return any `Errors.Error`; the real calls fail with a
request or JSON decoding error.

Behaviour the model keeps from the code:

- `int(code[0])` on the floor-plan type code raises IndexError on an empty
  code and ValueError on a non-digit. The exception escapes `sorted`, so the
  building prints its header (in text mode; nothing in CSV mode) and no
  apartment, and the program stops.
- In text mode `print(apartment)` computes `per_sq_ft`. A unit of size 0
  therefore raises ZeroDivisionError after the earlier units were printed
  and before its rent joins `by_size`.
- When no line of an Equity page matches, `_info` prints the failure and
  returns None, and `None['BedroomTypes']` raises TypeError.
- The first exception ends the whole run; later buildings are not scraped.
- Bedroom bounds are inclusive. A bound error is reported only when both
  bounds are given and min > max. The building listing comes before the
  bound check.
- Sizes are summarised in ascending order. Each size appears once, however
  many units share it.

The program does not skip malformed entries or unreachable buildings: the
exception escapes and the run stops. The model does the same.

## Model

| member | source | states |
|---|---|---|
| Listing.PerSqFt | scraper.py:47-50 | rent per square foot exists exactly when the size is non-zero (otherwise ZeroDivisionError), and times the size gives the rent |
| UnitOrder.UnitLeReflexive | scraper.py:169 | the string order used as the sort key is reflexive |
| UnitOrder.UnitLeTotal | scraper.py:169 | any two unit strings are comparable |
| UnitOrder.UnitLeTransitive | scraper.py:169 | the string order is transitive |
| UnitOrder.InsertSorted | scraper.py:169 | inserting into a sorted run keeps it sorted and adds exactly that apartment |
| UnitOrder.InsertWithUnit | scraper.py:169 | insertion puts an apartment before the existing apartments with its unit |
| UnitOrder.SortByUnitCorrect | scraper.py:169 | the sort gives a permutation of the apartments, ordered by unit, and apartments with equal units keep their fetch order (stability) |
| Avalon.BedsOf | scraper.py:77 | an empty type code raises IndexError; a non-digit first character raises ValueError; otherwise the bedroom count is the digit value of the first character |
| Avalon.EntryApartmentsAt | scraper.py:82-85 | the l-th apartment of a finish package is built from the l-th entry, with the plan's size and the type's bed count |
| Avalon.EntryApartmentsLength | scraper.py:82-85 | a finish package yields one apartment per entry |
| Avalon.PackageApartmentsLength | scraper.py:81-85 | a floor plan yields as many apartments as its packages hold entries |
| Avalon.PlanApartmentsLength | scraper.py:78-85 | a floor-plan type yields as many apartments as its plans hold entries |
| Avalon.PackageApartmentsAt | scraper.py:81-85 | entry l of package k sits at position (entries before package k) + l |
| Avalon.PlanApartmentsAt | scraper.py:78-85 | entry l of package k of plan j sits at its nested-loop position and carries plan j's estimated size |
| Avalon.PlanOffset | scraper.py:78-85 | the apartments of plan j follow, in order, the apartments of the plans before it |
| Avalon.TypeApartmentsOutcome | scraper.py:75-77 | the traversal succeeds exactly when every type code parses; on failure it raises the error of the first type whose code does not parse |
| Avalon.TypeApartmentsLength | scraper.py:75-85 | on success one apartment is yielded per apartment entry, over all types, plans and packages |
| Avalon.TypeOffset | scraper.py:75-85 | on success the apartments of type i follow, in order, the apartments of the types before it, with type i's parsed bed count |
| Avalon.TypeApartmentsAt | scraper.py:71-85 | on success the apartment at the nested-loop position of (type i, plan j, package k, entry l) has that entry's number and effective rent, plan j's size and type i's bed count |
| InfoPattern.SpacesEnd | scraper.py:91 | the scan over ` *` stops at the first non-space |
| InfoPattern.IdentEnd | scraper.py:91 | the scan over `[a-z0-5]+` stops at the first character outside the class |
| InfoPattern.LineEnd | scraper.py:91 | `.` runs up to the first newline |
| InfoPattern.LastBrace | scraper.py:91 | finds the last `}` in a range, or reports that there is none |
| InfoPattern.MatchIsScanned | scraper.py:90-91 | every way the regular expression can match a line starts with the spaces and identifier the scans find |
| InfoPattern.MatchInfoSound | scraper.py:90-91 | a group the recogniser returns is the `info` group of the greedy match |
| InfoPattern.MatchInfoComplete | scraper.py:90-91 | whenever the regular expression matches a line, the recogniser returns a group |
| InfoPattern.MatchInfoCorrect | scraper.py:90-91 | the recogniser finds a match exactly when the regular expression matches the line from its start, and then returns the `info` group of the greedy match: `{` up to the last `}` |
| Equity.Split | scraper.py:100 | `split('\n')` yields at least one piece and no piece contains a newline |
| Equity.JoinSplit | scraper.py:100 | joining the pieces back with newlines gives the page text |
| Equity.SplitJoin | scraper.py:100 | splitting newline-free lines joined with newlines gives back those lines |
| Equity.FirstMatchIsFirst | scraper.py:100-104 | no fragment exactly when no line matches; otherwise the fragment comes from a matching line before which no line matches |
| Equity.FindInfo | scraper.py:98-104 | the loop over the page's lines returns the fragment of the first matching line, or nothing |
| Equity.UnitApartmentsAt | scraper.py:114-118 | one apartment per available unit, in order, built from that unit and the type's bed count |
| Equity.TypeApartmentsLength | scraper.py:113-118 | one apartment per available unit over all bedroom types |
| Equity.TypeApartmentsAt | scraper.py:113-118 | unit j of bedroom type i sits at position (units before type i) + j, with its id, best-term price, square feet and type i's bedroom count |
| Equity.TypeApartmentsFrom | scraper.py:113-118 | every yielded apartment comes from some available unit of some bedroom type |
| Pipeline.SurvivorsCount | scraper.py:170-173 | an apartment survives the bed filter exactly as often as it was fetched when its bed count is within the inclusive bounds, and not at all otherwise |
| Pipeline.SurvivorsSorted | scraper.py:169-173 | filtering a unit-sorted sequence keeps it sorted |
| Pipeline.SurvivorsInRange | scraper.py:170-173 | every survivor has a bed count within the bounds |
| Pipeline.SortedSurvivors | scraper.py:169-173 | the emitted apartments are the in-range fetched ones, as a permutation, ordered by unit, with equal units in fetch order |
| Pipeline.TextUnitsCorrect | scraper.py:169-179 | text mode crashes exactly when some survivor has size 0; without a crash it prints one unit line per survivor with rent / size; with one it prints the survivors before the first zero-size one and raises ZeroDivisionError |
| Pipeline.TextUnitsFrom | scraper.py:178 | every printed unit line is about a survivor |
| Pipeline.ZeroSizeStops | scraper.py:178 | a surviving unit of size 0 ends text mode with exactly the unit lines printed before it and ZeroDivisionError |
| Pipeline.GroupKeys | scraper.py:166-179 | `by_size` maps exactly the sizes that occur to the non-empty, ordered list of their rents |
| Pipeline.FirstSeenCorrect | scraper.py:179 | the dictionary's insertion order holds every size that occurs, each once |
| Pipeline.SortRealsCorrect | scraper.py:182 | the sorted keys are ascending and a permutation of the keys |
| Pipeline.SummaryLinesAt | scraper.py:182-184 | line j of the summary is the size line for key j with `sum / len / size` |
| Pipeline.SortedSizesCorrect | scraper.py:182 | the summarised sizes are strictly ascending and are exactly the survivors' sizes |
| Pipeline.SummaryCorrect | scraper.py:179-184 | one size line per distinct size, in ascending order, carrying the mean rent of that size divided by the size |
| Pipeline.SummaryExample | scraper.py:179-184 | sizes 900 (rents 2000, 2100) and 1100 (rent 2400), fetched with 1100 first, summarise as 900 then 1100 with 2050/900 and 2400/1100 |
| Pipeline.WithUnitSurvivors | scraper.py:169-173 | the bed filter and selecting one unit commute |
| Pipeline.SurvivorsAppend | scraper.py:169-173 | filtering distributes over concatenation |
| Pipeline.TextUnitsStops | scraper.py:178 | once text mode has crashed, later survivors print nothing |
| Pipeline.ApartmentLoop | scraper.py:169-179 | the apartment loop prints the CSV rows or the unit lines of the survivors, stops on the first zero-size unit, and leaves `by_size` and its key order as the survivors give them |
| Pipeline.SummaryLoop | scraper.py:182-184 | the summary loop prints one size line per sorted key |
| Pipeline.Emit | scraper.py:169-185 | one building's output after the fetch equals `EmitSpec`: CSV rows, or unit lines then the summary then a blank line, or the unit lines before a ZeroDivisionError |
| Pipeline.EmitInRange | scraper.py:169-185 | no unit line and no CSV row shows an apartment outside the bed bounds |
| Scraper.CheckBedsCorrect | scraper.py:129-133 | the bounds are rejected exactly when no bedroom count satisfies both |
| Scraper.PrintBuildings | scraper.py:135-140 | the listing is the header followed by the building names |
| Scraper.SelectedCorrect | scraper.py:161-163 | a building is scraped exactly when no names are given or its name is among them; with no names all are, in order |
| Scraper.SelectedAppend | scraper.py:161-163 | selection distributes over concatenation of the registry |
| Scraper.FetchEquity | scraper.py:98-113 | for an Equity page that was read, the failure is printed and TypeError raised exactly when no line matches the pattern; otherwise the fragment of the first matching line is decoded and its units are yielded, with nothing printed |
| Scraper.ProcessStops | scraper.py:161-185 | after an exception no later building is processed |
| Scraper.Run | scraper.py:142-185 | the program prints and ends as `RunSpec` states: listing and exit, bound error, or the selected buildings in registry order until the first exception |
| Scraper.BuildingInRange | scraper.py:164-185 | one building's output shows only apartments inside the bed bounds |
| Scraper.ProcessInRange | scraper.py:161-185 | the output of any run of the building loop shows only apartments inside the bed bounds |
| Scraper.RunInRange | scraper.py:142-185 | nothing the program prints shows an apartment outside the bed bounds |
| Scraper.RunBeforeFetching | scraper.py:129-160 | the listing and the bound error end the program before any request, whatever the network returns |
| Scraper.NoneSelected | scraper.py:161-163 | naming no configured building prints nothing and ends normally |
| Scraper.CsvBuilding | scraper.py:174-181 | in CSV mode a fetched building writes only rows, one per in-range apartment, in unit order, and no header or summary |

## Left out

- HTTP requests, the request headers and the JSON decoding are parameters (`Scraper.Net`). The real calls' failures are modelled as `Err` values; the model allows any `Errors.Error` to come back from them.
- The decoded JSON is typed, so a missing key (KeyError), a wrongly shaped value (TypeError) or a non-numeric rent or size cannot be expressed. Of the errors that come from the data, the model keeps the bed-code errors (IndexError, ValueError), the missing Equity fragment (TypeError) and, in text mode, the ZeroDivisionError of a unit of size 0.
- The clock: the Avalon URL's millisecond cache buster and the CSV `timestamp` column are left out, and the Avalon URL template is not modelled.
- Text formatting: `Apartment.__str__`, the `Size` line's format, the bound error message and the CSV writer's serialisation. Lines are structured values carrying the numbers they print.
- Argument parsing with argparse. `Scraper.Args` is the parsed result.
- Floating point: rents, sizes and means are exact reals, so rounding and the printed digits of floats are not modelled.
- Avalon.BedsOf: only ASCII digits '0'-'9' are accepted. Python's `int` also accepts other Unicode decimal digits.
- The CSV writer's header row: the code never calls `writeheader`, so no header appears in the output, and the model emits none.
- Generator laziness: `sorted` consumes the whole generator before any apartment line is printed, so an error during the traversal yields no apartment lines. The model computes the whole traversal as one value.
- Python's string ordering is modelled as lexicographic order on characters (code points). The model assumes unit identifiers are strings.

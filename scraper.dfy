/**
 * The building registry and `main` without its I/O: the building listing,
 * the bedroom-bound check, the selection of buildings by name, and for each
 * selected building the fetch, the sort by unit and the emission.
 */
module Scraper {
  import opened Wrappers
  import opened Errors
  import opened Listing
  import opened UnitOrder
  import opened Pipeline
  import Avalon
  import Equity
  import InfoPattern

  /** A configured building and the adapter that scrapes it. */
  datatype Building =
    | AvalonBuilding(name: string, communityCode: string)
    | EquityBuilding(name: string, urlPath: string)

  /** `BUILDINGS`, in registry order. */
  const Buildings: seq<Building> := [
    AvalonBuilding("Avalon Mission Bay", "CA067"),
    AvalonBuilding("Avalon San Bruno", "CA583"),
    EquityBuilding("La Terraza", "san-francisco-bay/colma/la-terrazza-apartments"),
    EquityBuilding("South City Station", "san-francisco-bay/south-san-francisco/south-city-station-apartments")
  ]

  const EquityUrlPrefix: string := "http://www.equityapartments.com/"

  /** `Equity._url`. */
  function EquityUrl(urlPath: string): string
  {
    EquityUrlPrefix + urlPath
  }

  /** The parsed command line. */
  datatype Args = Args(
    minBeds: Option<int>,
    maxBeds: Option<int>,
    listBuildings: bool,    // `-b` / `--buildings`
    csv: bool,              // `--csv`
    building: seq<string>)  // the positional building names

  /**
   * The network and the JSON decoder, which the model does not see into:
   * the decoded ApartmentSearch reply for a community code, the text of a
   * page, and the decoding of an embedded fragment into the shape Equity
   * expects. Each may return any `Error`; the real calls fail with a request
   * or JSON decoding error.
   */
  datatype Net = Net(
    avalonReply: string -> Result<Avalon.Info, Error>,
    page: string -> Result<string, Error>,
    loads: string -> Result<Equity.Info, Error>)

  /** How the program ends. */
  datatype Exit =
    | Completed                         // normal end, or `sys.exit()` after the listing
    | BadBeds(minBeds: int, maxBeds: int)  // `sys.exit` with the bound error message
    | Crashed(error: Error)             // an uncaught exception

  /** Everything the program prints, and how it ends. */
  datatype Report = Report(lines: seq<Line>, exit: Exit)

  /** `_check_beds` rejects the arguments. */
  predicate BedsConflict(minBeds: Option<int>, maxBeds: Option<int>)
  {
    minBeds.Some? && maxBeds.Some? && minBeds.value > maxBeds.value
  }

  /** `_check_beds` rejects exactly the bounds that no bedroom count satisfies. */
  lemma CheckBedsCorrect(minBeds: Option<int>, maxBeds: Option<int>)
    ensures BedsConflict(minBeds, maxBeds) <==> !exists beds :: InRange(beds, minBeds, maxBeds)
  {
    if !BedsConflict(minBeds, maxBeds) {
      var beds := if minBeds.Some? then minBeds.value else if maxBeds.Some? then maxBeds.value else 0;
      assert InRange(beds, minBeds, maxBeds);
    }
  }

  /** The lines of `_maybe_print_buildings` after its header. */
  function Names(bs: seq<Building>): (r: seq<Line>)
    ensures |r| == |bs|
    ensures forall i :: 0 <= i < |bs| ==> r[i] == BuildingName(bs[i].name)
  {
    seq(|bs|, i requires 0 <= i < |bs| => BuildingName(bs[i].name))
  }

  /** The buildings the main loop does not skip, in registry order. */
  function Selected(bs: seq<Building>, names: seq<string>): seq<Building>
  {
    if bs == [] then []
    else Selected(bs[..|bs| - 1], names)
         + (if names == [] || bs[|bs| - 1].name in names then [bs[|bs| - 1]] else [])
  }

  /**
   * A building is processed exactly when no names are given or its name is
   * among them; with no names every building is processed, in order.
   */
  lemma {:induction false} SelectedCorrect(bs: seq<Building>, names: seq<string>)
    ensures forall b :: b in Selected(bs, names) <==> b in bs && (names == [] || b.name in names)
    ensures names == [] ==> Selected(bs, names) == bs
    decreases |bs|
  {
    if bs != [] {
      SelectedCorrect(bs[..|bs| - 1], names);
      assert bs == bs[..|bs| - 1] + [bs[|bs| - 1]];
    }
  }

  /** What fetching a building prints, and the apartments it yields or the exception it raises. */
  datatype Fetched = Fetched(printed: seq<Line>, apartments: Result<seq<Apartment>, Error>)

  /** `building.apartments`, consumed in full by `sorted`. */
  function FetchSpec(b: Building, net: Net): Fetched
  {
    match b
    case AvalonBuilding(_, code) =>
      (match net.avalonReply(code)
       case Err(e) => Fetched([], Err(e))
       case Ok(info) => Fetched([], Avalon.Apartments(info)))
    case EquityBuilding(_, path) =>
      (match net.page(EquityUrl(path))
       case Err(e) => Fetched([], Err(e))
       case Ok(text) =>
         (match Equity.FirstMatch(Equity.Split(text))
          // `_info` prints the failure and returns None, and `None['BedroomTypes']` raises
          case None => Fetched([InfoNotFound(EquityUrl(path))], Err(TypeError))
          case Some(fragment) =>
            (match net.loads(fragment)
             case Err(e) => Fetched([], Err(e))
             case Ok(info) => Fetched([], Ok(Equity.Apartments(info))))))
  }

  method Fetch(b: Building, net: Net) returns (f: Fetched)
    ensures f == FetchSpec(b, net)
  {
    match b {
      case AvalonBuilding(_, code) =>
        var reply := net.avalonReply(code);
        if reply.Err? {
          return Fetched([], Err(reply.error));
        }
        f := Fetched([], Avalon.Apartments(reply.value));
      case EquityBuilding(_, path) =>
        var text := net.page(EquityUrl(path));
        if text.Err? {
          return Fetched([], Err(text.error));
        }
        var fragment := Equity.FindInfo(text.value);
        if fragment.None? {
          return Fetched([InfoNotFound(EquityUrl(path))], Err(TypeError));
        }
        var info := net.loads(fragment.value);
        if info.Err? {
          return Fetched([], Err(info.error));
        }
        f := Fetched([], Ok(Equity.Apartments(info.value)));
    }
  }

  /**
   * Fetching an Equity page that was read: the failure message and TypeError
   * come exactly when no line of the page matches the pattern; otherwise the
   * fragment decoded is that of the first matching line, and nothing is printed.
   */
  lemma FetchEquity(name: string, path: string, net: Net, text: string)
    requires net.page(EquityUrl(path)) == Ok(text)
    ensures FetchSpec(EquityBuilding(name, path), net) == Fetched([InfoNotFound(EquityUrl(path))], Err(TypeError))
            <==> forall i :: 0 <= i < |Equity.Split(text)| ==> InfoPattern.MatchInfo(Equity.Split(text)[i]).None?
    ensures var lines := Equity.Split(text);
            (exists i :: 0 <= i < |lines| && InfoPattern.MatchInfo(lines[i]).Some?) ==>
              exists i :: 0 <= i < |lines| && InfoPattern.MatchInfo(lines[i]).Some?
                && (forall h :: 0 <= h < i ==> InfoPattern.MatchInfo(lines[h]).None?)
                && FetchSpec(EquityBuilding(name, path), net)
                   == match net.loads(InfoPattern.MatchInfo(lines[i]).value)
                      case Err(e) => Fetched([], Err(e))
                      case Ok(info) => Fetched([], Ok(Equity.Apartments(info)))
  {
    Equity.FirstMatchIsFirst(Equity.Split(text));
  }

  /** What one iteration of the building loop prints, and the exception that ends it, if any. */
  function BuildingSpec(b: Building, args: Args, net: Net): Printed
  {
    var header := if args.csv then [] else [Header(b.name)];
    var f := FetchSpec(b, net);
    match f.apartments
    case Err(e) => Printed(header + f.printed, Some(e))
    case Ok(apartments) =>
      var emitted := EmitSpec(b.name, SortByUnit(apartments), args.minBeds, args.maxBeds, args.csv);
      Printed(header + f.printed + emitted.lines, emitted.crash)
  }

  method ScrapeBuilding(b: Building, args: Args, net: Net) returns (p: Printed)
    ensures p == BuildingSpec(b, args, net)
  {
    var lines: seq<Line> := [];
    if !args.csv {
      lines := [Header(b.name)];
    }
    var f := Fetch(b, net);
    lines := lines + f.printed;
    if f.apartments.Err? {
      return Printed(lines, Some(f.apartments.error));
    }
    var sorted := SortByUnit(f.apartments.value);
    var emitted, crash := Emit(b.name, sorted, args.minBeds, args.maxBeds, args.csv);
    return Printed(lines + emitted, crash);
  }

  /** The building loop over the selected buildings, which ends at the first exception. */
  function Process(bs: seq<Building>, args: Args, net: Net): Report
  {
    if bs == [] then Report([], Completed)
    else
      var prev := Process(bs[..|bs| - 1], args, net);
      if !prev.exit.Completed? then prev
      else
        var p := BuildingSpec(bs[|bs| - 1], args, net);
        Report(prev.lines + p.lines, if p.crash.Some? then Crashed(p.crash.value) else Completed)
  }

  /** `main`, after argument parsing. */
  function RunSpec(args: Args, net: Net): Report
  {
    if args.listBuildings then Report([BuildingsHeader] + Names(Buildings), Completed)
    else if BedsConflict(args.minBeds, args.maxBeds) then Report([], BadBeds(args.minBeds.value, args.maxBeds.value))
    else Process(Selected(Buildings, args.building), args, net)
  }

  lemma SelectedStep(bs: seq<Building>, i: nat, names: seq<string>)
    requires i < |bs|
    ensures Selected(bs[..i + 1], names)
            == Selected(bs[..i], names) + (if names == [] || bs[i].name in names then [bs[i]] else [])
  {
    assert bs[..i + 1][..i] == bs[..i];
  }

  lemma ProcessStep(bs: seq<Building>, b: Building, args: Args, net: Net)
    ensures Process(bs + [b], args, net)
            == if !Process(bs, args, net).exit.Completed? then Process(bs, args, net)
               else
                 var p := BuildingSpec(b, args, net);
                 Report(Process(bs, args, net).lines + p.lines,
                        if p.crash.Some? then Crashed(p.crash.value) else Completed)
  {
    assert (bs + [b])[..|bs|] == bs;
  }

  /** After an exception no later building is processed. */
  lemma {:induction false} ProcessStops(bs: seq<Building>, more: seq<Building>, args: Args, net: Net)
    requires !Process(bs, args, net).exit.Completed?
    ensures Process(bs + more, args, net) == Process(bs, args, net)
    decreases |more|
  {
    if more == [] {
      assert bs + more == bs;
    } else {
      ProcessStops(bs, more[..|more| - 1], args, net);
      assert (bs + more)[..|bs + more| - 1] == bs + more[..|more| - 1];
    }
  }

  lemma {:induction false} SelectedAppend(bs: seq<Building>, more: seq<Building>, names: seq<string>)
    ensures Selected(bs + more, names) == Selected(bs, names) + Selected(more, names)
    decreases |more|
  {
    if more == [] {
      assert bs + more == bs;
    } else {
      SelectedAppend(bs, more[..|more| - 1], names);
      assert (bs + more)[..|bs + more| - 1] == bs + more[..|more| - 1];
    }
  }

  /** `_maybe_print_buildings` when the flag is set. */
  method PrintBuildings() returns (lines: seq<Line>)
    ensures lines == [BuildingsHeader] + Names(Buildings)
  {
    lines := [BuildingsHeader];
    for i := 0 to |Buildings|
      invariant lines == [BuildingsHeader] + Names(Buildings[..i])
    {
      lines := lines + [BuildingName(Buildings[i].name)];
    }
    assert Buildings[..|Buildings|] == Buildings;
  }

  /** `main`: what the program prints and how it ends. */
  method Run(args: Args, net: Net) returns (lines: seq<Line>, exit: Exit)
    ensures Report(lines, exit) == RunSpec(args, net)
  {
    if args.listBuildings {
      lines := PrintBuildings();
      return lines, Completed;
    }
    if args.minBeds.Some? && args.maxBeds.Some? && args.minBeds.value > args.maxBeds.value {
      return [], BadBeds(args.minBeds.value, args.maxBeds.value);
    }
    lines := [];
    ghost var selected: seq<Building> := [];
    for i := 0 to |Buildings|
      invariant selected == Selected(Buildings[..i], args.building)
      invariant Process(selected, args, net) == Report(lines, Completed)
    {
      var b := Buildings[i];
      SelectedStep(Buildings, i, args.building);
      if args.building != [] && b.name !in args.building {
        continue;
      }
      var p := ScrapeBuilding(b, args, net);
      ProcessStep(selected, b, args, net);
      lines := lines + p.lines;
      selected := selected + [b];
      if p.crash.Some? {
        SelectedAppend(Buildings[..i + 1], Buildings[i + 1..], args.building);
        assert Buildings[..i + 1] + Buildings[i + 1..] == Buildings;
        ProcessStops(selected, Selected(Buildings[i + 1..], args.building), args, net);
        return lines, Crashed(p.crash.value);
      }
    }
    assert Buildings[..|Buildings|] == Buildings;
    exit := Completed;
  }

  /** A building's lines show only apartments inside the bedroom range. */
  lemma BuildingInRange(b: Building, args: Args, net: Net)
    ensures AllInRange(BuildingSpec(b, args, net).lines, args.minBeds, args.maxBeds)
  {
    var f := FetchSpec(b, net);
    var header := if args.csv then [] else [Header(b.name)];
    assert forall i :: 0 <= i < |header + f.printed| ==> !(header + f.printed)[i].UnitLine? && !(header + f.printed)[i].CsvRow?;
    if f.apartments.Ok? {
      EmitInRange(b.name, SortByUnit(f.apartments.value), args.minBeds, args.maxBeds, args.csv);
    }
  }

  lemma {:induction false} ProcessInRange(bs: seq<Building>, args: Args, net: Net)
    ensures AllInRange(Process(bs, args, net).lines, args.minBeds, args.maxBeds)
    decreases |bs|
  {
    if bs != [] {
      ProcessInRange(bs[..|bs| - 1], args, net);
      BuildingInRange(bs[|bs| - 1], args, net);
    }
  }

  /**
   * Nothing the program prints, in text or CSV mode, shows an apartment
   * whose bedroom count lies outside the requested bounds.
   */
  lemma RunInRange(args: Args, net: Net)
    ensures AllInRange(RunSpec(args, net).lines, args.minBeds, args.maxBeds)
  {
    if !args.listBuildings && !BedsConflict(args.minBeds, args.maxBeds) {
      ProcessInRange(Selected(Buildings, args.building), args, net);
    }
  }

  /** The listing and the bound check end the program before any request is made. */
  lemma RunBeforeFetching(args: Args, net1: Net, net2: Net)
    requires args.listBuildings || BedsConflict(args.minBeds, args.maxBeds)
    ensures RunSpec(args, net1) == RunSpec(args, net2)
    ensures RunSpec(args, net1).exit == if args.listBuildings then Completed else BadBeds(args.minBeds.value, args.maxBeds.value)
  {
  }

  /** Naming no configured building prints nothing and ends normally. */
  lemma NoneSelected(args: Args, net: Net)
    requires !args.listBuildings && !BedsConflict(args.minBeds, args.maxBeds)
    requires args.building != []
    requires forall i :: 0 <= i < |Buildings| ==> Buildings[i].name !in args.building
    ensures RunSpec(args, net) == Report([], Completed)
  {
    SelectedCorrect(Buildings, args.building);
    assert Selected(Buildings, args.building) == [] by {
      if Selected(Buildings, args.building) != [] {
        assert Selected(Buildings, args.building)[0] in Selected(Buildings, args.building);
      }
    }
  }

  /**
   * In CSV mode a building that yields its apartments writes one row per
   * surviving apartment, in unit order, and nothing else.
   */
  lemma CsvBuilding(b: Building, args: Args, net: Net)
    requires args.csv && FetchSpec(b, net).apartments.Ok?
    ensures var sv := Survivors(SortByUnit(FetchSpec(b, net).apartments.value), args.minBeds, args.maxBeds);
            && BuildingSpec(b, args, net) == Printed(CsvRows(b.name, sv), None)
            && SortedByUnit(sv)
            && multiset(sv) == multiset(Survivors(FetchSpec(b, net).apartments.value, args.minBeds, args.maxBeds))
  {
    var apartments := FetchSpec(b, net).apartments.value;
    SortedSurvivors(apartments, args.minBeds, args.maxBeds);
    assert FetchSpec(b, net).printed == [] by {
      if b.EquityBuilding? {
        assert Equity.FirstMatch(Equity.Split(net.page(EquityUrl(b.urlPath)).value)).Some?;
      }
    }
  }
}

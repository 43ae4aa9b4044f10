/**
 * What `main` does with one building's sorted apartments: the bedroom
 * filter, and then either one CSV row per survivor, or in text mode one line
 * per survivor, the `by_size` grouping of rents and one summary line per size.
 */
module Pipeline {
  import opened Wrappers
  import opened Errors
  import opened Listing
  import opened UnitOrder

  /** What the program writes to standard output, one element per printed line. */
  datatype Line =
    | BuildingsHeader                                // `# Buildings`
    | BuildingName(name: string)                     // one registry entry
    | Header(name: string)                           // `# <name>` before a building
    | InfoNotFound(url: string)                      // `Unable to get info from <url>`
    | UnitLine(apartment: Apartment, perSqFt: real)  // `str(apartment)`
    | SizeLine(size: real, meanPerSqFt: real)        // `Size <size>: <mean rent / size>`
    | Blank                                          // the empty line after a building
    | CsvRow(bldg: string, apartment: Apartment)     // one CSV record (its timestamp left out)

  /** Lines printed, and the exception that stopped the printing, if one did. */
  datatype Printed = Printed(lines: seq<Line>, crash: Option<Error>)

  /** Neither `continue` of the apartment loop is taken. */
  predicate Survives(a: Apartment, minBeds: Option<int>, maxBeds: Option<int>)
  {
    !(minBeds.Some? && minBeds.value > a.beds) && !(maxBeds.Some? && maxBeds.value < a.beds)
  }

  /** The inclusive bedroom range the two optional bounds describe. */
  predicate InRange(beds: int, minBeds: Option<int>, maxBeds: Option<int>)
  {
    (minBeds.None? || minBeds.value <= beds) && (maxBeds.None? || beds <= maxBeds.value)
  }

  /** The apartments the loop does not skip, in loop order. */
  function Survivors(s: seq<Apartment>, minBeds: Option<int>, maxBeds: Option<int>): seq<Apartment>
  {
    if s == [] then []
    else Survivors(s[..|s| - 1], minBeds, maxBeds)
         + (if Survives(s[|s| - 1], minBeds, maxBeds) then [s[|s| - 1]] else [])
  }

  /**
   * An apartment survives as often as it occurs in the input when its bedroom
   * count is in the inclusive range, and never otherwise.
   */
  lemma {:induction false} SurvivorsCount(s: seq<Apartment>, minBeds: Option<int>, maxBeds: Option<int>, a: Apartment)
    ensures multiset(Survivors(s, minBeds, maxBeds))[a]
            == if InRange(a.beds, minBeds, maxBeds) then multiset(s)[a] else 0
    decreases |s|
  {
    if s != [] {
      var init, x := s[..|s| - 1], s[|s| - 1];
      SurvivorsCount(init, minBeds, maxBeds, a);
      assert s == init + [x];
      assert Survives(x, minBeds, maxBeds) == InRange(x.beds, minBeds, maxBeds);
      assert multiset(s) == multiset(init) + multiset{x};
      var tail := if Survives(x, minBeds, maxBeds) then [x] else [];
      assert multiset(Survivors(s, minBeds, maxBeds)) == multiset(Survivors(init, minBeds, maxBeds)) + multiset(tail);
    }
  }

  /** Filtering keeps the order of what it keeps: a sorted input gives a sorted output. */
  lemma {:induction false} SurvivorsSorted(s: seq<Apartment>, minBeds: Option<int>, maxBeds: Option<int>)
    requires SortedByUnit(s)
    ensures SortedByUnit(Survivors(s, minBeds, maxBeds))
    decreases |s|
  {
    if s != [] {
      var init := s[..|s| - 1];
      assert SortedByUnit(init);
      SurvivorsSorted(init, minBeds, maxBeds);
      var r := Survivors(s, minBeds, maxBeds);
      var p := Survivors(init, minBeds, maxBeds);
      forall i, j | 0 <= i < j < |r| ensures UnitLe(r[i].unit, r[j].unit) {
        if j == |p| {
          SurvivorsCount(init, minBeds, maxBeds, r[i]);
          assert r[i] in multiset(p);
          assert r[i] in multiset(init);
          var h :| 0 <= h < |init| && init[h] == r[i];
        }
      }
    }
  }

  /** The CSV rows of a building: one per survivor. */
  function CsvRows(name: string, sv: seq<Apartment>): (r: seq<Line>)
    ensures |r| == |sv|
    ensures forall i :: 0 <= i < |r| ==> r[i] == CsvRow(name, sv[i])
  {
    seq(|sv|, i requires 0 <= i < |sv| => CsvRow(name, sv[i]))
  }

  /** The unit lines of survivors whose sizes are all non-zero. */
  function UnitLines(sv: seq<Apartment>): seq<Line>
    requires forall i :: 0 <= i < |sv| ==> sv[i].size != 0.0
  {
    seq(|sv|, i requires 0 <= i < |sv| => UnitLine(sv[i], sv[i].rent / sv[i].size))
  }

  /** Printing the survivors in text mode, which stops at the first one whose rent per square foot raises. */
  function TextUnits(sv: seq<Apartment>): Printed
  {
    if sv == [] then Printed([], None)
    else
      var prev := TextUnits(sv[..|sv| - 1]);
      var a := sv[|sv| - 1];
      if prev.crash.Some? then prev
      else match PerSqFt(a)
        case None => Printed(prev.lines, Some(ZeroDivisionError))
        case Some(p) => Printed(prev.lines + [UnitLine(a, p)], None)
  }

  /**
   * Text mode prints every survivor with its rent per square foot when no
   * survivor has size zero; otherwise it prints those before the first such
   * survivor and then raises ZeroDivisionError.
   */
  lemma {:induction false} TextUnitsCorrect(sv: seq<Apartment>)
    ensures (forall i :: 0 <= i < |sv| ==> sv[i].size != 0.0) <==> TextUnits(sv).crash.None?
    ensures TextUnits(sv).crash.None? ==> TextUnits(sv).lines == UnitLines(sv)
    ensures TextUnits(sv).crash.Some? ==>
              TextUnits(sv).crash == Some(ZeroDivisionError)
              && (exists j :: 0 <= j < |sv| && sv[j].size == 0.0
                    && (forall h :: 0 <= h < j ==> sv[h].size != 0.0)
                    && TextUnits(sv).lines == UnitLines(sv[..j]))
    decreases |sv|
  {
    if sv != [] {
      var init := sv[..|sv| - 1];
      TextUnitsCorrect(init);
      assert forall i :: 0 <= i < |init| ==> init[i] == sv[i];
      if TextUnits(init).crash.Some? {
        var j :| 0 <= j < |init| && init[j].size == 0.0
                 && (forall h :: 0 <= h < j ==> init[h].size != 0.0)
                 && TextUnits(init).lines == UnitLines(init[..j]);
        assert init[..j] == sv[..j];
      } else if sv[|sv| - 1].size == 0.0 {
        assert init == sv[..|sv| - 1];
      }
    }
  }

  // The `by_size` dictionary.

  /** `by_size` after appending the rent of every survivor to the list of its size. */
  function Group(sv: seq<Apartment>): map<real, seq<real>>
  {
    if sv == [] then map[]
    else
      var prev := Group(sv[..|sv| - 1]);
      var a := sv[|sv| - 1];
      prev[a.size := (if a.size in prev then prev[a.size] else []) + [a.rent]]
  }

  /** The keys of `by_size` in insertion order (Python dictionaries keep it). */
  function FirstSeen(sv: seq<Apartment>): seq<real>
  {
    if sv == [] then []
    else
      var prev := FirstSeen(sv[..|sv| - 1]);
      var a := sv[|sv| - 1];
      if a.size in prev then prev else prev + [a.size]
  }

  /** The rents of the survivors of size `k`, in order: a reference definition. */
  function RentsOf(sv: seq<Apartment>, k: real): seq<real>
  {
    if sv == [] then []
    else RentsOf(sv[..|sv| - 1], k) + (if sv[|sv| - 1].size == k then [sv[|sv| - 1].rent] else [])
  }

  ghost function SizesOf(sv: seq<Apartment>): set<real>
  {
    set i | 0 <= i < |sv| :: sv[i].size
  }

  /** `by_size` has a key for exactly the sizes that occur, each holding the non-empty list of the rents of that size in order. */
  lemma {:induction false} GroupKeys(sv: seq<Apartment>)
    ensures Group(sv).Keys == SizesOf(sv)
    ensures forall k :: k in Group(sv) ==> Group(sv)[k] == RentsOf(sv, k) && Group(sv)[k] != []
    ensures forall k :: k !in Group(sv) ==> RentsOf(sv, k) == []
    decreases |sv|
  {
    if sv != [] {
      var init := sv[..|sv| - 1];
      GroupKeys(init);
      assert forall i :: 0 <= i < |init| ==> init[i] == sv[i];
      assert SizesOf(sv) == SizesOf(init) + {sv[|sv| - 1].size};
    }
  }

  /** The insertion order of `by_size` lists every size that occurs, once. */
  lemma {:induction false} FirstSeenCorrect(sv: seq<Apartment>)
    ensures (set k | k in FirstSeen(sv)) == SizesOf(sv)
    ensures forall i, j :: 0 <= i < j < |FirstSeen(sv)| ==> FirstSeen(sv)[i] != FirstSeen(sv)[j]
    decreases |sv|
  {
    if sv != [] {
      var init := sv[..|sv| - 1];
      FirstSeenCorrect(init);
      assert forall i :: 0 <= i < |init| ==> init[i] == sv[i];
      assert SizesOf(sv) == SizesOf(init) + {sv[|sv| - 1].size};
    }
  }

  // Sorting the keys and the summary lines.

  ghost predicate Ascending(xs: seq<real>)
  {
    forall i, j :: 0 <= i < j < |xs| ==> xs[i] <= xs[j]
  }

  function InsertReal(x: real, xs: seq<real>): seq<real>
  {
    if xs == [] || x <= xs[0] then [x] + xs else [xs[0]] + InsertReal(x, xs[1..])
  }

  /** Python's `sorted` on the keys of `by_size`. */
  function SortReals(xs: seq<real>): seq<real>
  {
    if xs == [] then [] else InsertReal(xs[0], SortReals(xs[1..]))
  }

  lemma {:induction false} InsertRealMultiset(x: real, xs: seq<real>)
    ensures multiset(InsertReal(x, xs)) == multiset(xs) + multiset{x}
    decreases |xs|
  {
    if xs != [] && !(x <= xs[0]) {
      InsertRealMultiset(x, xs[1..]);
      assert xs == [xs[0]] + xs[1..];
    }
  }

  lemma {:induction false} InsertRealAscending(x: real, xs: seq<real>)
    requires Ascending(xs)
    ensures Ascending(InsertReal(x, xs))
    decreases |xs|
  {
    if xs != [] && !(x <= xs[0]) {
      InsertRealAscending(x, xs[1..]);
      InsertRealMultiset(x, xs[1..]);
      var t := InsertReal(x, xs[1..]);
      forall j | 0 <= j < |t| ensures xs[0] <= t[j] {
        assert t[j] in multiset(t);
        if t[j] != x {
          assert t[j] in multiset(xs[1..]);
          var m :| 0 <= m < |xs[1..]| && xs[1..][m] == t[j];
          assert xs[m + 1] == t[j];
        }
      }
      assert InsertReal(x, xs) == [xs[0]] + t;
    }
  }

  /** The sorted keys are the keys, each as often as before, in ascending order. */
  lemma {:induction false} SortRealsCorrect(xs: seq<real>)
    ensures Ascending(SortReals(xs))
    ensures multiset(SortReals(xs)) == multiset(xs)
    decreases |xs|
  {
    if xs != [] {
      SortRealsCorrect(xs[1..]);
      InsertRealMultiset(xs[0], SortReals(xs[1..]));
      InsertRealAscending(xs[0], SortReals(xs[1..]));
      assert xs == [xs[0]] + xs[1..];
    }
  }

  function Sum(xs: seq<real>): real
  {
    if xs == [] then 0.0 else Sum(xs[..|xs| - 1]) + xs[|xs| - 1]
  }

  /** Every key has a non-empty list of rents and a non-zero size, so its mean per square foot is defined. */
  predicate Summarisable(keys: seq<real>, bySize: map<real, seq<real>>)
  {
    forall i :: 0 <= i < |keys| ==> keys[i] in bySize && bySize[keys[i]] != [] && keys[i] != 0.0
  }

  /** One `Size` line per key, in the order given: `sum(rents) / len(rents) / size`. */
  function SummaryLines(keys: seq<real>, bySize: map<real, seq<real>>): seq<Line>
    requires Summarisable(keys, bySize)
  {
    if keys == [] then []
    else
      var k := keys[|keys| - 1];
      assert forall h :: h in keys[..|keys| - 1] ==> h in keys;
      SummaryLines(keys[..|keys| - 1], bySize) + [SizeLine(k, Sum(bySize[k]) / (|bySize[k]| as real) / k)]
  }

  lemma {:induction false} SummaryLinesAt(keys: seq<real>, bySize: map<real, seq<real>>, j: nat)
    requires Summarisable(keys, bySize)
    ensures |SummaryLines(keys, bySize)| == |keys|
    ensures j < |keys| ==>
              SummaryLines(keys, bySize)[j]
              == SizeLine(keys[j], Sum(bySize[keys[j]]) / (|bySize[keys[j]]| as real) / keys[j])
    decreases |keys|
  {
    if keys != [] {
      assert forall h :: h in keys[..|keys| - 1] ==> h in keys;
      SummaryLinesAt(keys[..|keys| - 1], bySize, j);
    }
  }

  /** The sizes the summary reports, in the order it reports them. */
  function SortedSizes(sv: seq<Apartment>): seq<real>
  {
    SortReals(FirstSeen(sv))
  }

  /** A sorted permutation of a sequence without repetitions is strictly ascending. */
  lemma StrictlyAscending(xs: seq<real>, ys: seq<real>)
    requires forall i, j :: 0 <= i < j < |xs| ==> xs[i] != xs[j]
    requires Ascending(ys) && multiset(ys) == multiset(xs)
    ensures forall i, j :: 0 <= i < j < |ys| ==> ys[i] < ys[j]
  {
    forall i, j | 0 <= i < j < |ys| ensures ys[i] < ys[j] {
      if ys[i] == ys[j] {
        assert multiset(ys)[ys[i]] >= 2 by {
          assert ys == ys[..i] + [ys[i]] + ys[i + 1..j] + [ys[j]] + ys[j + 1..];
        }
        DistinctOnce(xs, ys[i]);
      }
    }
  }

  /** The reported sizes are exactly the sizes of the survivors, each once, in strictly ascending order. */
  lemma SortedSizesCorrect(sv: seq<Apartment>)
    ensures forall i, j :: 0 <= i < j < |SortedSizes(sv)| ==> SortedSizes(sv)[i] < SortedSizes(sv)[j]
    ensures forall k :: k in SortedSizes(sv) <==> k in SizesOf(sv)
  {
    GroupKeys(sv);
    FirstSeenCorrect(sv);
    var seen := FirstSeen(sv);
    SortRealsCorrect(seen);
    StrictlyAscending(seen, SortReals(seen));
    forall k ensures k in SortReals(seen) <==> k in SizesOf(sv) {
      assert k in SortReals(seen) <==> k in multiset(seen);
      assert k in seen <==> k in (set h | h in seen);
    }
  }

  /** Every reported size has rents in `by_size` and, once no size is zero, a defined mean per square foot. */
  lemma SortedSizesSummarisable(sv: seq<Apartment>)
    requires forall i :: 0 <= i < |sv| ==> sv[i].size != 0.0
    ensures Summarisable(SortedSizes(sv), Group(sv))
  {
    GroupKeys(sv);
    FirstSeenCorrect(sv);
    SortedSizesCorrect(sv);
    var keys := SortedSizes(sv);
    forall i | 0 <= i < |keys| ensures keys[i] in Group(sv) && Group(sv)[keys[i]] != [] && keys[i] != 0.0 {
      var k := keys[i];
      assert k in keys;
      assert k in SizesOf(sv);
      var h :| 0 <= h < |sv| && sv[h].size == k;
    }
  }

  /** The summary of a building whose survivors all have non-zero sizes. */
  function Summary(sv: seq<Apartment>): seq<Line>
    requires forall i :: 0 <= i < |sv| ==> sv[i].size != 0.0
  {
    SortedSizesSummarisable(sv);
    SummaryLines(SortedSizes(sv), Group(sv))
  }

  /**
   * The summary has one line per reported size, each the mean rent of the
   * survivors of that size divided by the size.
   */
  lemma SummaryCorrect(sv: seq<Apartment>)
    requires forall i :: 0 <= i < |sv| ==> sv[i].size != 0.0
    ensures |Summary(sv)| == |SortedSizes(sv)|
    ensures forall j :: 0 <= j < |SortedSizes(sv)| ==>
              var k := SortedSizes(sv)[j];
              && k != 0.0 && RentsOf(sv, k) != []
              && Summary(sv)[j] == SizeLine(k, Sum(RentsOf(sv, k)) / (|RentsOf(sv, k)| as real) / k)
  {
    GroupKeys(sv);
    FirstSeenCorrect(sv);
    SortedSizesSummarisable(sv);
    var keys := SortedSizes(sv);
    SummaryLinesAt(keys, Group(sv), 0);
    forall j | 0 <= j < |keys|
      ensures var k := keys[j];
              && k != 0.0 && RentsOf(sv, k) != []
              && Summary(sv)[j] == SizeLine(k, Sum(RentsOf(sv, k)) / (|RentsOf(sv, k)| as real) / k)
    {
      SummaryLinesAt(keys, Group(sv), j);
    }
  }

  /** An element of a sequence without repetitions occurs in it once. */
  lemma {:induction false} DistinctOnce(xs: seq<real>, x: real)
    requires forall i, j :: 0 <= i < j < |xs| ==> xs[i] != xs[j]
    ensures multiset(xs)[x] <= 1
    decreases |xs|
  {
    if xs != [] {
      var init := xs[..|xs| - 1];
      DistinctOnce(init, x);
      assert xs == init + [xs[|xs| - 1]];
      if xs[|xs| - 1] == x {
        assert x !in init;
      }
    }
  }

  lemma SurvivorsStep(s: seq<Apartment>, i: nat, minBeds: Option<int>, maxBeds: Option<int>)
    requires i < |s|
    ensures Survivors(s[..i + 1], minBeds, maxBeds)
            == Survivors(s[..i], minBeds, maxBeds) + (if Survives(s[i], minBeds, maxBeds) then [s[i]] else [])
  {
    assert s[..i + 1][..i] == s[..i];
  }

  lemma {:induction false} SurvivorsAppend(s: seq<Apartment>, t: seq<Apartment>, minBeds: Option<int>, maxBeds: Option<int>)
    ensures Survivors(s + t, minBeds, maxBeds) == Survivors(s, minBeds, maxBeds) + Survivors(t, minBeds, maxBeds)
    decreases |t|
  {
    if t == [] {
      assert s + t == s;
    } else {
      var init := t[..|t| - 1];
      SurvivorsAppend(s, init, minBeds, maxBeds);
      assert (s + t)[..|s + t| - 1] == s + init;
      assert (s + t)[|s + t| - 1] == t[|t| - 1];
    }
  }

  /** One more survivor of non-zero size in text mode. */
  lemma TextUnitsStep(sv: seq<Apartment>, a: Apartment)
    requires TextUnits(sv).crash.None? && a.size != 0.0
    ensures TextUnits(sv + [a]) == Printed(TextUnits(sv).lines + [UnitLine(a, a.rent / a.size)], None)
  {
    assert (sv + [a])[..|sv|] == sv;
  }

  /** Once text mode has raised, later survivors print nothing. */
  lemma {:induction false} TextUnitsStops(s: seq<Apartment>, t: seq<Apartment>)
    requires TextUnits(s).crash.Some?
    ensures TextUnits(s + t) == TextUnits(s)
    decreases |t|
  {
    if t == [] {
      assert s + t == s;
    } else {
      TextUnitsStops(s, t[..|t| - 1]);
      assert (s + t)[..|s + t| - 1] == s + t[..|t| - 1];
    }
  }

  lemma {:induction false} WithUnitAppend(s: seq<Apartment>, t: seq<Apartment>, k: string)
    ensures WithUnit(s + t, k) == WithUnit(s, k) + WithUnit(t, k)
    decreases |s|
  {
    if s == [] {
      assert s + t == t;
    } else {
      var u, head := s + t, if s[0].unit == k then [s[0]] else [];
      assert u[0] == s[0] && u[1..] == s[1..] + t;
      WithUnitAppend(s[1..], t, k);
      assert WithUnit(u, k) == head + WithUnit(u[1..], k);
      assert WithUnit(s, k) == head + WithUnit(s[1..], k);
    }
  }

  lemma OneApartment(x: Apartment, k: string, minBeds: Option<int>, maxBeds: Option<int>)
    ensures WithUnit([x], k) == if x.unit == k then [x] else []
    ensures Survivors([x], minBeds, maxBeds) == if Survives(x, minBeds, maxBeds) then [x] else []
  {
    assert [x][1..] == [] && [x][..0] == [];
  }

  /** Filtering by unit and filtering by bedroom count commute. */
  lemma {:induction false} WithUnitSurvivors(s: seq<Apartment>, k: string, minBeds: Option<int>, maxBeds: Option<int>)
    ensures WithUnit(Survivors(s, minBeds, maxBeds), k) == Survivors(WithUnit(s, k), minBeds, maxBeds)
    decreases |s|
  {
    if s != [] {
      var init, x := s[..|s| - 1], s[|s| - 1];
      var tail := if Survives(x, minBeds, maxBeds) then [x] else [];
      var single := if x.unit == k then [x] else [];
      OneApartment(x, k, minBeds, maxBeds);
      WithUnitSurvivors(init, k, minBeds, maxBeds);
      assert Survivors(s, minBeds, maxBeds) == Survivors(init, minBeds, maxBeds) + tail;
      WithUnitAppend(Survivors(init, minBeds, maxBeds), tail, k);
      assert s == init + [x];
      WithUnitAppend(init, [x], k);
      SurvivorsAppend(WithUnit(init, k), single, minBeds, maxBeds);
      assert WithUnit(tail, k) == Survivors(single, minBeds, maxBeds) by {
        if x.unit == k && Survives(x, minBeds, maxBeds) {
          assert WithUnit(tail, k) == [x];
        } else if Survives(x, minBeds, maxBeds) {
          assert WithUnit(tail, k) == [];
        }
      }
    }
  }

  /**
   * The survivors of the sorted apartments are the survivors of the fetched
   * ones, rearranged: non-decreasing by unit, and with equal units in
   * fetch order.
   */
  lemma SortedSurvivors(s: seq<Apartment>, minBeds: Option<int>, maxBeds: Option<int>)
    ensures SortedByUnit(Survivors(SortByUnit(s), minBeds, maxBeds))
    ensures multiset(Survivors(SortByUnit(s), minBeds, maxBeds)) == multiset(Survivors(s, minBeds, maxBeds))
    ensures forall k :: WithUnit(Survivors(SortByUnit(s), minBeds, maxBeds), k) == WithUnit(Survivors(s, minBeds, maxBeds), k)
  {
    var sorted := SortByUnit(s);
    SortByUnitCorrect(s);
    SurvivorsSorted(sorted, minBeds, maxBeds);
    forall a ensures multiset(Survivors(sorted, minBeds, maxBeds))[a] == multiset(Survivors(s, minBeds, maxBeds))[a] {
      SurvivorsCount(sorted, minBeds, maxBeds, a);
      SurvivorsCount(s, minBeds, maxBeds, a);
    }
    forall k ensures WithUnit(Survivors(sorted, minBeds, maxBeds), k) == WithUnit(Survivors(s, minBeds, maxBeds), k) {
      WithUnitSurvivors(sorted, k, minBeds, maxBeds);
      WithUnitSurvivors(s, k, minBeds, maxBeds);
    }
  }

  /** No unit line and no CSV row shows an apartment outside the bedroom range. */
  ghost predicate AllInRange(lines: seq<Line>, minBeds: Option<int>, maxBeds: Option<int>)
  {
    forall i :: 0 <= i < |lines| && (lines[i].UnitLine? || lines[i].CsvRow?) ==>
      InRange(lines[i].apartment.beds, minBeds, maxBeds)
  }

  /** What one building prints once its apartments are fetched and sorted. */
  function EmitSpec(name: string, sorted: seq<Apartment>, minBeds: Option<int>, maxBeds: Option<int>, csv: bool): Printed
  {
    var sv := Survivors(sorted, minBeds, maxBeds);
    if csv then Printed(CsvRows(name, sv), None)
    else
      var u := TextUnits(sv);
      TextUnitsCorrect(sv);
      if u.crash.Some? then u else Printed(u.lines + Summary(sv) + [Blank], None)
  }

  /** Appending one survivor to `by_size`, and to its insertion order when its size is new. */
  lemma GroupStep(sv: seq<Apartment>, a: Apartment)
    ensures Group(sv + [a]) == Group(sv)[a.size := (if a.size in Group(sv) then Group(sv)[a.size] else []) + [a.rent]]
    ensures FirstSeen(sv + [a]) == if a.size in Group(sv) then FirstSeen(sv) else FirstSeen(sv) + [a.size]
  {
    assert (sv + [a])[..|sv|] == sv;
    GroupKeys(sv);
    FirstSeenCorrect(sv);
    assert a.size in FirstSeen(sv) ==> a.size in (set k | k in FirstSeen(sv));
  }

  /** A surviving unit of size 0 ends text mode with what was printed before it. */
  lemma ZeroSizeStops(sorted: seq<Apartment>, i: nat, minBeds: Option<int>, maxBeds: Option<int>)
    requires i < |sorted| && Survives(sorted[i], minBeds, maxBeds) && sorted[i].size == 0.0
    requires TextUnits(Survivors(sorted[..i], minBeds, maxBeds)).crash.None?
    ensures TextUnits(Survivors(sorted, minBeds, maxBeds))
            == Printed(TextUnits(Survivors(sorted[..i], minBeds, maxBeds)).lines, Some(ZeroDivisionError))
  {
    var sv := Survivors(sorted[..i], minBeds, maxBeds);
    SurvivorsStep(sorted, i, minBeds, maxBeds);
    SurvivorsAppend(sorted[..i + 1], sorted[i + 1..], minBeds, maxBeds);
    assert sorted[..i + 1] + sorted[i + 1..] == sorted;
    assert (sv + [sorted[i]])[..|sv|] == sv;
    TextUnitsStops(sv + [sorted[i]], Survivors(sorted[i + 1..], minBeds, maxBeds));
  }

  /** One survivor of non-zero size in text mode: its unit line, and its rent in `by_size`. */
  lemma TextStep(sv: seq<Apartment>, a: Apartment, lines: seq<Line>, bySize: map<real, seq<real>>, order: seq<real>)
    requires TextUnits(sv) == Printed(lines, None) && bySize == Group(sv) && order == FirstSeen(sv)
    requires a.size != 0.0
    ensures TextUnits(sv + [a]) == Printed(lines + [UnitLine(a, a.rent / a.size)], None)
    ensures Group(sv + [a]) == bySize[a.size := (if a.size in bySize then bySize[a.size] else []) + [a.rent]]
    ensures FirstSeen(sv + [a]) == if a.size in bySize then order else order + [a.size]
  {
    TextUnitsStep(sv, a);
    GroupStep(sv, a);
  }

  /**
   * The apartment loop of `main`: skips the apartments outside the bedroom
   * range, writes a CSV row or prints a unit line for each other one, and in
   * text mode appends its rent to `by_size`.
   */
  method ApartmentLoop(name: string, sorted: seq<Apartment>, minBeds: Option<int>, maxBeds: Option<int>, csv: bool)
    returns (lines: seq<Line>, bySize: map<real, seq<real>>, order: seq<real>, crash: Option<Error>)
    ensures csv ==> crash.None? && lines == CsvRows(name, Survivors(sorted, minBeds, maxBeds))
    ensures !csv ==> Printed(lines, crash) == TextUnits(Survivors(sorted, minBeds, maxBeds))
    ensures !csv && crash.None? ==>
              bySize == Group(Survivors(sorted, minBeds, maxBeds))
              && order == FirstSeen(Survivors(sorted, minBeds, maxBeds))
  {
    lines, bySize, order, crash := [], map[], [], None;
    ghost var sv: seq<Apartment> := [];  // the survivors so far
    for i := 0 to |sorted|
      invariant sv == Survivors(sorted[..i], minBeds, maxBeds)
      invariant csv ==> lines == CsvRows(name, sv)
      invariant !csv ==> TextUnits(sv) == Printed(lines, None)
      invariant !csv ==> bySize == Group(sv) && order == FirstSeen(sv)
    {
      var a := sorted[i];
      SurvivorsStep(sorted, i, minBeds, maxBeds);
      if minBeds.Some? && minBeds.value > a.beds {
        continue;
      }
      if maxBeds.Some? && maxBeds.value < a.beds {
        continue;
      }
      if csv {
        lines := lines + [CsvRow(name, a)];
      } else {
        var p := PerSqFt(a);
        if p.None? {
          ZeroSizeStops(sorted, i, minBeds, maxBeds);
          return lines, bySize, order, Some(ZeroDivisionError);
        }
        TextStep(sv, a, lines, bySize, order);
        lines := lines + [UnitLine(a, p.value)];
        if a.size !in bySize {  // a new key of the dictionary goes last in its order
          order := order + [a.size];
        }
        bySize := bySize[a.size := (if a.size in bySize then bySize[a.size] else []) + [a.rent]];
      }
      sv := sv + [a];
    }
    assert sorted[..|sorted|] == sorted;
  }

  /** Once no survivor has size zero, every key in the insertion order has a defined mean per square foot. */
  lemma GroupSummarisable(sv: seq<Apartment>)
    requires forall i :: 0 <= i < |sv| ==> sv[i].size != 0.0
    ensures Summarisable(FirstSeen(sv), Group(sv))
  {
    GroupKeys(sv);
    FirstSeenCorrect(sv);
    var keys := FirstSeen(sv);
    forall i | 0 <= i < |keys| ensures keys[i] in Group(sv) && Group(sv)[keys[i]] != [] && keys[i] != 0.0 {
      var k := keys[i];
      assert k in (set h | h in keys);
      assert k in SizesOf(sv);
      var h :| 0 <= h < |sv| && sv[h].size == k;
    }
  }

  /** Sorting the keys of `by_size` introduces no new key. */
  lemma SortRealsKeys(order: seq<real>, bySize: map<real, seq<real>>)
    requires Summarisable(order, bySize)
    ensures Summarisable(SortReals(order), bySize)
  {
    SortRealsCorrect(order);
    var keys := SortReals(order);
    forall i | 0 <= i < |keys| ensures keys[i] in bySize && bySize[keys[i]] != [] && keys[i] != 0.0 {
      var k := keys[i];
      assert k in multiset(keys);
      assert k in multiset(order);
      var j :| 0 <= j < |order| && order[j] == k;
    }
  }

  lemma SummaryLinesStep(keys: seq<real>, bySize: map<real, seq<real>>, j: nat)
    requires j < |keys|
    requires Summarisable(keys, bySize)
    ensures Summarisable(keys[..j], bySize)
    ensures Summarisable(keys[..j + 1], bySize)
    ensures SummaryLines(keys[..j + 1], bySize)
            == SummaryLines(keys[..j], bySize)
               + [SizeLine(keys[j], Sum(bySize[keys[j]]) / (|bySize[keys[j]]| as real) / keys[j])]
  {
    assert forall k :: k in keys[..j] ==> k in keys;
    assert forall k :: k in keys[..j + 1] ==> k in keys;
    assert keys[..j + 1][..j] == keys[..j];
  }

  /** The summary loop of `main`: one line per key of `by_size`, in ascending key order. */
  method SummaryLoop(bySize: map<real, seq<real>>, order: seq<real>) returns (lines: seq<Line>)
    requires Summarisable(order, bySize)
    ensures Summarisable(SortReals(order), bySize)
    ensures lines == SummaryLines(SortReals(order), bySize)
  {
    SortRealsKeys(order, bySize);
    var keys := SortReals(order);
    lines := [];
    for j := 0 to |keys|
      invariant Summarisable(keys[..j], bySize)
      invariant lines == SummaryLines(keys[..j], bySize)
    {
      SummaryLinesStep(keys, bySize, j);
      var size := keys[j];
      lines := lines + [SizeLine(size, Sum(bySize[size]) / (|bySize[size]| as real) / size)];
    }
    assert keys[..|keys|] == keys;
  }

  /** What `main` prints for one building once its apartments are fetched and sorted. */
  method Emit(name: string, sorted: seq<Apartment>, minBeds: Option<int>, maxBeds: Option<int>, csv: bool)
    returns (lines: seq<Line>, crash: Option<Error>)
    ensures Printed(lines, crash) == EmitSpec(name, sorted, minBeds, maxBeds, csv)
  {
    var bySize, order;
    lines, bySize, order, crash := ApartmentLoop(name, sorted, minBeds, maxBeds, csv);
    if csv || crash.Some? {
      return;
    }
    ghost var sv := Survivors(sorted, minBeds, maxBeds);
    TextUnitsCorrect(sv);
    GroupSummarisable(sv);
    var summary := SummaryLoop(bySize, order);
    lines := lines + summary + [Blank];
  }

  lemma SurvivorsInRange(s: seq<Apartment>, minBeds: Option<int>, maxBeds: Option<int>)
    ensures forall a :: a in Survivors(s, minBeds, maxBeds) ==> InRange(a.beds, minBeds, maxBeds)
  {
    forall a | a in Survivors(s, minBeds, maxBeds) ensures InRange(a.beds, minBeds, maxBeds) {
      SurvivorsCount(s, minBeds, maxBeds, a);
    }
  }

  /** Every line text mode prints for the units is a unit line about one of the survivors. */
  lemma {:induction false} TextUnitsFrom(sv: seq<Apartment>)
    ensures forall i :: 0 <= i < |TextUnits(sv).lines| ==>
              TextUnits(sv).lines[i].UnitLine? && TextUnits(sv).lines[i].apartment in sv
    decreases |sv|
  {
    if sv != [] {
      var init := sv[..|sv| - 1];
      TextUnitsFrom(init);
      assert forall a :: a in init ==> a in sv;
    }
  }

  lemma SummaryNoUnits(sv: seq<Apartment>)
    requires forall i :: 0 <= i < |sv| ==> sv[i].size != 0.0
    ensures forall j :: 0 <= j < |Summary(sv)| ==> Summary(sv)[j].SizeLine?
  {
    SummaryCorrect(sv);
  }

  /** Whatever a building prints shows only apartments inside the bedroom range, in either mode. */
  lemma EmitInRange(name: string, sorted: seq<Apartment>, minBeds: Option<int>, maxBeds: Option<int>, csv: bool)
    ensures AllInRange(EmitSpec(name, sorted, minBeds, maxBeds, csv).lines, minBeds, maxBeds)
  {
    var sv := Survivors(sorted, minBeds, maxBeds);
    SurvivorsInRange(sorted, minBeds, maxBeds);
    if !csv {
      TextUnitsCorrect(sv);
      TextUnitsFrom(sv);
      var u := TextUnits(sv);
      if u.crash.None? {
        SummaryNoUnits(sv);
        var lines := u.lines + Summary(sv) + [Blank];
        assert forall i :: |u.lines| <= i < |u.lines| + |Summary(sv)| ==> lines[i] == Summary(sv)[i - |u.lines|];
      }
    }
  }

  function ExampleUnits(): seq<Apartment>
  {
    [Apartment("301", 2400.0, 1100.0, 2), Apartment("101", 2000.0, 900.0, 1), Apartment("102", 2100.0, 900.0, 1)]
  }

  lemma ExampleSizes()
    ensures SortedSizes(ExampleUnits()) == [900.0, 1100.0]
  {
    var sv := ExampleUnits();
    assert sv[..1][..0] == [] && sv[..2][..1] == sv[..1];
    assert FirstSeen(sv[..1]) == [1100.0];
    assert FirstSeen(sv[..2]) == [1100.0, 900.0];
    assert FirstSeen(sv) == [1100.0, 900.0];
    assert [1100.0, 900.0][1..] == [900.0] && [900.0][1..] == [];
  }

  lemma ExampleRents()
    ensures RentsOf(ExampleUnits(), 900.0) == [2000.0, 2100.0]
    ensures RentsOf(ExampleUnits(), 1100.0) == [2400.0]
  {
    var sv := ExampleUnits();
    assert sv[..1][..0] == [] && sv[..2][..1] == sv[..1];
    assert [] + [2400.0] == [2400.0] && [] + [2000.0] == [2000.0];
    assert RentsOf(sv[..1], 900.0) == [] && RentsOf(sv[..1], 1100.0) == [2400.0];
    assert RentsOf(sv[..2], 900.0) == [2000.0] && RentsOf(sv[..2], 1100.0) == [2400.0];
  }

  /**
   * Two 900 sq ft units at 2000 and 2100 and one 1100 sq ft unit at 2400,
   * fetched with the larger size first, summarise in ascending size order.
   */
  lemma SummaryExample()
    ensures Summary(ExampleUnits()) == [SizeLine(900.0, 2050.0 / 900.0), SizeLine(1100.0, 2400.0 / 1100.0)]
  {
    var sv := ExampleUnits();
    ExampleSizes();
    ExampleRents();
    SummaryCorrect(sv);
    assert Sum([2000.0, 2100.0]) == 4100.0 by { assert [2000.0, 2100.0][..1] == [2000.0]; }
    assert Sum([2400.0]) == 2400.0 by { assert [2400.0][..0] == []; }
    var out := Summary(sv);
    assert |out| == 2;
    assert out[0] == SizeLine(900.0, 4100.0 / 2.0 / 900.0);
    assert out[1] == SizeLine(1100.0, 2400.0 / 1.0 / 1100.0);
  }
}

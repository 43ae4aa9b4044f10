/**
 * The Equity adapter: the search for the embedded availability line in the
 * page text (`_info`), and the traversal bedroom types -> available units of
 * the decoded fragment.
 */
module Equity {
  import opened Wrappers
  import opened Listing
  import opened InfoPattern

  datatype BestTerm = BestTerm(price: real)
  datatype AvailableUnit = AvailableUnit(unitId: string, bestTerm: BestTerm, sqFt: real)
  datatype BedroomType = BedroomType(bedroomCount: int, availableUnits: seq<AvailableUnit>)
  datatype Info = Info(bedroomTypes: seq<BedroomType>)

  /** Python's `text.split('\n')`: the pieces between newlines, never fewer than one. */
  function Split(s: string): (r: seq<string>)
    ensures |r| > 0
    ensures forall i :: 0 <= i < |r| ==> '\n' !in r[i]
    decreases |s|
  {
    var i := LineEnd(s, 0);
    assert '\n' !in s[..i] by {
      forall h | 0 <= h < i ensures s[..i][h] != '\n' { assert s[..i][h] == s[h]; }
    }
    if i == |s| then [s] else [s[..i]] + Split(s[i + 1..])
  }

  /** Python's `'\n'.join(lines)`. */
  function Join(lines: seq<string>): string
    requires |lines| > 0
  {
    if |lines| == 1 then lines[0] else lines[0] + "\n" + Join(lines[1..])
  }

  /** Splitting loses nothing: joining the lines with newlines gives back the text. */
  lemma {:induction false} JoinSplit(s: string)
    ensures Join(Split(s)) == s
    decreases |s|
  {
    var i := LineEnd(s, 0);
    if i < |s| {
      JoinSplit(s[i + 1..]);
      assert s == s[..i] + "\n" + s[i + 1..];
    }
  }

  /** And the lines of a joined text are the lines joined, when none of them holds a newline. */
  lemma {:induction false} SplitJoin(lines: seq<string>)
    requires |lines| > 0
    requires forall i :: 0 <= i < |lines| ==> '\n' !in lines[i]
    ensures Split(Join(lines)) == lines
    decreases |lines|
  {
    var s := Join(lines);
    var l0 := lines[0];
    assert s[..|l0|] == l0;
    assert forall h :: 0 <= h < |l0| ==> s[h] == l0[h] && l0[h] in l0;
    if |lines| == 1 {
      assert LineEnd(s, 0) == |s|;
    } else {
      assert s[|l0|] == '\n';
      assert LineEnd(s, 0) == |l0|;
      assert s[|l0| + 1..] == Join(lines[1..]);
      SplitJoin(lines[1..]);
    }
  }

  /** The `info` group of the first matching line, if any line matches. */
  function FirstMatch(lines: seq<string>): Option<string>
  {
    if lines == [] then None
    else if MatchInfo(lines[0]).Some? then MatchInfo(lines[0])
    else FirstMatch(lines[1..])
  }

  /** Only the first matching line counts; later matches are ignored. */
  lemma {:induction false} FirstMatchIsFirst(lines: seq<string>)
    ensures FirstMatch(lines).None? <==> forall i :: 0 <= i < |lines| ==> MatchInfo(lines[i]).None?
    ensures FirstMatch(lines).Some? ==>
              exists i :: 0 <= i < |lines| && MatchInfo(lines[i]) == FirstMatch(lines)
                && forall h :: 0 <= h < i ==> MatchInfo(lines[h]).None?
    decreases |lines|
  {
    if lines != [] && MatchInfo(lines[0]).None? {
      FirstMatchIsFirst(lines[1..]);
      forall i | 0 <= i < |lines[1..]| ensures lines[1..][i] == lines[i + 1] { }
      if FirstMatch(lines).Some? {
        var i :| 0 <= i < |lines[1..]| && MatchInfo(lines[1..][i]) == FirstMatch(lines)
          && forall h :: 0 <= h < i ==> MatchInfo(lines[1..][h]).None?;
        assert MatchInfo(lines[i + 1]) == FirstMatch(lines);
        forall h | 0 <= h < i + 1 ensures MatchInfo(lines[h]).None? {
          if h > 0 { assert lines[h] == lines[1..][h - 1]; }
        }
      }
    }
  }

  /** The line search of `_info`: the fragment of the first line of `page` the pattern matches. */
  method FindInfo(page: string) returns (info: Option<string>)
    ensures info == FirstMatch(Split(page))
  {
    var lines := Split(page);
    var i := 0;
    while i < |lines|
      invariant 0 <= i <= |lines|
      invariant FirstMatch(lines) == FirstMatch(lines[i..])
    {
      assert lines[i..][1..] == lines[i + 1..];
      var m := MatchInfo(lines[i]);
      if m.Some? {
        return m;
      }
      i := i + 1;
    }
    return None;
  }

  /** One apartment per available unit, with its group's bedroom count. */
  function FromUnit(u: AvailableUnit, beds: int): Apartment
  {
    Apartment(u.unitId, u.bestTerm.price, u.sqFt, beds)
  }

  function UnitApartments(us: seq<AvailableUnit>, beds: int): seq<Apartment>
  {
    if us == [] then [] else [FromUnit(us[0], beds)] + UnitApartments(us[1..], beds)
  }

  function TypeApartments(bts: seq<BedroomType>): seq<Apartment>
  {
    if bts == [] then []
    else UnitApartments(bts[0].availableUnits, bts[0].bedroomCount) + TypeApartments(bts[1..])
  }

  /** `Equity.apartments` once the fragment has been decoded. */
  function Apartments(info: Info): seq<Apartment>
  {
    TypeApartments(info.bedroomTypes)
  }

  /** The number of available units over all groups, defined independently of the traversal. */
  function UnitCount(bts: seq<BedroomType>): nat
  {
    if bts == [] then 0 else |bts[0].availableUnits| + UnitCount(bts[1..])
  }

  lemma {:induction false} UnitApartmentsAt(us: seq<AvailableUnit>, beds: int, j: nat)
    ensures |UnitApartments(us, beds)| == |us|
    ensures j < |us| ==> UnitApartments(us, beds)[j] == FromUnit(us[j], beds)
    decreases |us|
  {
    if us != [] { UnitApartmentsAt(us[1..], beds, if j > 0 then j - 1 else 0); }
  }

  /** The traversal yields as many apartments as there are available units. */
  lemma {:induction false} TypeApartmentsLength(bts: seq<BedroomType>)
    ensures |TypeApartments(bts)| == UnitCount(bts)
    decreases |bts|
  {
    if bts != [] {
      UnitApartmentsAt(bts[0].availableUnits, bts[0].bedroomCount, 0);
      TypeApartmentsLength(bts[1..]);
    }
  }

  /**
   * Unit j of group i is yielded after the units of all earlier groups, and
   * carries the group's bedroom count.
   */
  lemma {:induction false} TypeApartmentsAt(bts: seq<BedroomType>, i: nat, j: nat)
    requires i < |bts| && j < |bts[i].availableUnits|
    ensures UnitCount(bts[..i]) + j < |TypeApartments(bts)|
    ensures TypeApartments(bts)[UnitCount(bts[..i]) + j]
            == Apartment(bts[i].availableUnits[j].unitId, bts[i].availableUnits[j].bestTerm.price,
                         bts[i].availableUnits[j].sqFt, bts[i].bedroomCount)
    decreases |bts|
  {
    TypeApartmentsLength(bts);
    UnitApartmentsAt(bts[0].availableUnits, bts[0].bedroomCount, j);
    if i > 0 {
      TypeApartmentsAt(bts[1..], i - 1, j);
      assert bts[..i][1..] == bts[1..][..i - 1];
    }
  }

  /** Every yielded apartment comes from some available unit and has its group's bedroom count. */
  lemma {:induction false} TypeApartmentsFrom(bts: seq<BedroomType>, a: Apartment)
    requires a in TypeApartments(bts)
    ensures exists i, j :: 0 <= i < |bts| && 0 <= j < |bts[i].availableUnits|
              && a == FromUnit(bts[i].availableUnits[j], bts[i].bedroomCount)
    decreases |bts|
  {
    var us := bts[0].availableUnits;
    var head := UnitApartments(us, bts[0].bedroomCount);
    if a in head {
      UnitApartmentsAt(us, bts[0].bedroomCount, 0);
      var j :| 0 <= j < |head| && head[j] == a;
      UnitApartmentsAt(us, bts[0].bedroomCount, j);
      assert a == FromUnit(bts[0].availableUnits[j], bts[0].bedroomCount);
    } else {
      TypeApartmentsFrom(bts[1..], a);
      var i, j :| 0 <= i < |bts[1..]| && 0 <= j < |bts[1..][i].availableUnits|
        && a == FromUnit(bts[1..][i].availableUnits[j], bts[1..][i].bedroomCount);
      assert bts[i + 1] == bts[1..][i];
    }
  }
}

/**
 * The Avalon adapter: the decoded ApartmentSearch reply and the traversal
 * floor plan types -> floor plans -> finish packages -> apartments that
 * flattens it into apartments.
 */
module Avalon {
  import opened Wrappers
  import opened Errors
  import opened Listing

  datatype Pricing = Pricing(effectiveRent: real)
  datatype Entry = Entry(apartmentNumber: string, pricing: Pricing)
  datatype FinishPackage = FinishPackage(apartments: seq<Entry>)
  datatype FloorPlan = FloorPlan(estimatedSize: real, finishPackages: seq<FinishPackage>)
  datatype FloorPlanType = FloorPlanType(floorPlanTypeCode: string, availableFloorPlans: seq<FloorPlan>)
  datatype Results = Results(availableFloorPlanTypes: seq<FloorPlanType>)
  datatype Info = Info(results: Results)

  /** `int(code[0])`: the bedroom count a floor plan type code starts with. */
  function BedsOf(code: string): (r: Result<nat, Error>)
    ensures |code| == 0 ==> r == Err(IndexError)
    ensures |code| > 0 && !('0' <= code[0] <= '9') ==> r == Err(ValueError)
    ensures |code| > 0 && '0' <= code[0] <= '9' ==> r == Ok(code[0] as int - '0' as int)
    ensures r.Ok? ==> r.value < 10 && code[0] == (r.value + '0' as int) as char
  {
    if |code| == 0 then Err(IndexError)
    else if '0' <= code[0] <= '9' then Ok(code[0] as int - '0' as int)
    else Err(ValueError)
  }

  /** The innermost loop: one apartment per entry. */
  function EntryApartments(es: seq<Entry>, size: real, beds: nat): seq<Apartment>
  {
    if es == [] then []
    else [Apartment(es[0].apartmentNumber, es[0].pricing.effectiveRent, size, beds)]
         + EntryApartments(es[1..], size, beds)
  }

  function PackageApartments(ks: seq<FinishPackage>, size: real, beds: nat): seq<Apartment>
  {
    if ks == [] then []
    else EntryApartments(ks[0].apartments, size, beds) + PackageApartments(ks[1..], size, beds)
  }

  /** Every floor plan hands its estimated size down to its apartments. */
  function PlanApartments(ps: seq<FloorPlan>, beds: nat): seq<Apartment>
  {
    if ps == [] then []
    else PackageApartments(ps[0].finishPackages, ps[0].estimatedSize, beds)
         + PlanApartments(ps[1..], beds)
  }

  /** The outer loop: the bedroom count of each type is computed as the loop reaches it. */
  function TypeApartments(ts: seq<FloorPlanType>): Result<seq<Apartment>, Error>
  {
    if ts == [] then Ok([])
    else match BedsOf(ts[0].floorPlanTypeCode)
      case Err(e) => Err(e)
      case Ok(beds) =>
        match TypeApartments(ts[1..])
        case Err(e) => Err(e)
        case Ok(rest) => Ok(PlanApartments(ts[0].availableFloorPlans, beds) + rest)
  }

  /** `Avalon.apartments` once the reply has been decoded. */
  function Apartments(info: Info): Result<seq<Apartment>, Error>
  {
    TypeApartments(info.results.availableFloorPlanTypes)
  }

  // Leaf counts, defined independently of the traversal.

  function PackageLeaves(ks: seq<FinishPackage>): nat
  {
    if ks == [] then 0 else |ks[0].apartments| + PackageLeaves(ks[1..])
  }

  function PlanLeaves(ps: seq<FloorPlan>): nat
  {
    if ps == [] then 0 else PackageLeaves(ps[0].finishPackages) + PlanLeaves(ps[1..])
  }

  function TypeLeaves(ts: seq<FloorPlanType>): nat
  {
    if ts == [] then 0 else PlanLeaves(ts[0].availableFloorPlans) + TypeLeaves(ts[1..])
  }

  /** The apartment an entry becomes. */
  function FromEntry(e: Entry, size: real, beds: nat): Apartment
  {
    Apartment(e.apartmentNumber, e.pricing.effectiveRent, size, beds)
  }

  lemma {:induction false} EntryApartmentsAt(es: seq<Entry>, size: real, beds: nat, l: nat)
    requires l < |es|
    ensures |EntryApartments(es, size, beds)| == |es|
    ensures EntryApartments(es, size, beds)[l] == FromEntry(es[l], size, beds)
    decreases |es|
  {
    if l > 0 { EntryApartmentsAt(es[1..], size, beds, l - 1); }
    else if |es| > 1 { EntryApartmentsAt(es[1..], size, beds, 0); }
  }

  lemma {:induction false} EntryApartmentsLength(es: seq<Entry>, size: real, beds: nat)
    ensures |EntryApartments(es, size, beds)| == |es|
    decreases |es|
  {
    if es != [] { EntryApartmentsLength(es[1..], size, beds); }
  }

  lemma {:induction false} PackageApartmentsLength(ks: seq<FinishPackage>, size: real, beds: nat)
    ensures |PackageApartments(ks, size, beds)| == PackageLeaves(ks)
    decreases |ks|
  {
    if ks != [] {
      EntryApartmentsLength(ks[0].apartments, size, beds);
      PackageApartmentsLength(ks[1..], size, beds);
    }
  }

  lemma {:induction false} PlanApartmentsLength(ps: seq<FloorPlan>, beds: nat)
    ensures |PlanApartments(ps, beds)| == PlanLeaves(ps)
    decreases |ps|
  {
    if ps != [] {
      PackageApartmentsLength(ps[0].finishPackages, ps[0].estimatedSize, beds);
      PlanApartmentsLength(ps[1..], beds);
    }
  }

  lemma {:induction false} PackageApartmentsAt(ks: seq<FinishPackage>, size: real, beds: nat, k: nat, l: nat)
    requires k < |ks| && l < |ks[k].apartments|
    ensures PackageLeaves(ks[..k]) + l < |PackageApartments(ks, size, beds)|
    ensures PackageApartments(ks, size, beds)[PackageLeaves(ks[..k]) + l]
            == FromEntry(ks[k].apartments[l], size, beds)
    decreases |ks|
  {
    PackageApartmentsLength(ks, size, beds);
    EntryApartmentsLength(ks[0].apartments, size, beds);
    if k == 0 {
      EntryApartmentsAt(ks[0].apartments, size, beds, l);
    } else {
      PackageApartmentsAt(ks[1..], size, beds, k - 1, l);
      assert ks[..k][1..] == ks[1..][..k - 1];
    }
  }

  /** Position q of plan j's apartments follows the apartments of the plans before it. */
  lemma {:induction false} PlanOffset(ps: seq<FloorPlan>, beds: nat, j: nat, q: nat)
    requires j < |ps| && q < PackageLeaves(ps[j].finishPackages)
    ensures q < |PackageApartments(ps[j].finishPackages, ps[j].estimatedSize, beds)|
    ensures PlanLeaves(ps[..j]) + q < |PlanApartments(ps, beds)|
    ensures PlanApartments(ps, beds)[PlanLeaves(ps[..j]) + q]
            == PackageApartments(ps[j].finishPackages, ps[j].estimatedSize, beds)[q]
    decreases |ps|
  {
    var head := PackageApartments(ps[0].finishPackages, ps[0].estimatedSize, beds);
    PackageApartmentsLength(ps[0].finishPackages, ps[0].estimatedSize, beds);
    PackageApartmentsLength(ps[j].finishPackages, ps[j].estimatedSize, beds);
    PlanApartmentsLength(ps[1..], beds);
    assert PlanApartments(ps, beds) == head + PlanApartments(ps[1..], beds);
    if j == 0 {
      assert ps[..0] == [];
    } else {
      assert ps[..j][0] == ps[0] && ps[..j][1..] == ps[1..][..j - 1];
      assert ps[1..][j - 1] == ps[j];
      PlanOffset(ps[1..], beds, j - 1, q);
    }
  }

  lemma PlanApartmentsAt(ps: seq<FloorPlan>, beds: nat, j: nat, k: nat, l: nat)
    requires j < |ps| && k < |ps[j].finishPackages| && l < |ps[j].finishPackages[k].apartments|
    ensures PlanLeaves(ps[..j]) + PackageLeaves(ps[j].finishPackages[..k]) + l
            < |PlanApartments(ps, beds)|
    ensures PlanApartments(ps, beds)[PlanLeaves(ps[..j]) + PackageLeaves(ps[j].finishPackages[..k]) + l]
            == FromEntry(ps[j].finishPackages[k].apartments[l], ps[j].estimatedSize, beds)
  {
    var plan := ps[j];
    PackageApartmentsAt(plan.finishPackages, plan.estimatedSize, beds, k, l);
    PackageApartmentsLength(plan.finishPackages, plan.estimatedSize, beds);
    PlanOffset(ps, beds, j, PackageLeaves(plan.finishPackages[..k]) + l);
  }

  /**
   * The traversal succeeds exactly when every floor plan type code starts
   * with a digit; otherwise it fails with the error of the first type whose
   * code does not, as the outer loop reaches that type before any later one.
   */
  lemma {:induction false} TypeApartmentsOutcome(ts: seq<FloorPlanType>)
    ensures TypeApartments(ts).Ok? <==> forall i :: 0 <= i < |ts| ==> BedsOf(ts[i].floorPlanTypeCode).Ok?
    ensures TypeApartments(ts).Err? ==>
              exists i :: 0 <= i < |ts|
                && BedsOf(ts[i].floorPlanTypeCode) == Err(TypeApartments(ts).error)
                && forall h :: 0 <= h < i ==> BedsOf(ts[h].floorPlanTypeCode).Ok?
    decreases |ts|
  {
    if ts != [] {
      TypeApartmentsOutcome(ts[1..]);
      if BedsOf(ts[0].floorPlanTypeCode).Ok? && TypeApartments(ts[1..]).Err? {
        var i :| 0 <= i < |ts[1..]|
          && BedsOf(ts[1..][i].floorPlanTypeCode) == Err(TypeApartments(ts[1..]).error)
          && forall h :: 0 <= h < i ==> BedsOf(ts[1..][h].floorPlanTypeCode).Ok?;
        assert BedsOf(ts[i + 1].floorPlanTypeCode) == Err(TypeApartments(ts).error);
        forall h | 0 <= h < i + 1 ensures BedsOf(ts[h].floorPlanTypeCode).Ok? {
          if h > 0 { assert ts[h] == ts[1..][h - 1]; }
        }
      }
      if TypeApartments(ts).Ok? {
        forall i | 0 <= i < |ts| ensures BedsOf(ts[i].floorPlanTypeCode).Ok? {
          if i > 0 { assert ts[i] == ts[1..][i - 1]; }
        }
      }
      if forall i :: 0 <= i < |ts| ==> BedsOf(ts[i].floorPlanTypeCode).Ok? {
        forall i | 0 <= i < |ts[1..]| ensures BedsOf(ts[1..][i].floorPlanTypeCode).Ok? {
          assert ts[1..][i] == ts[i + 1];
        }
      }
    }
  }

  /** A successful traversal yields exactly one apartment per leaf entry. */
  lemma {:induction false} TypeApartmentsLength(ts: seq<FloorPlanType>)
    requires TypeApartments(ts).Ok?
    ensures |TypeApartments(ts).value| == TypeLeaves(ts)
    decreases |ts|
  {
    if ts != [] {
      PlanApartmentsLength(ts[0].availableFloorPlans, BedsOf(ts[0].floorPlanTypeCode).value);
      TypeApartmentsLength(ts[1..]);
    }
  }

  /** Position q of type i's apartments follows the apartments of the types before it. */
  lemma {:induction false} TypeOffset(ts: seq<FloorPlanType>, i: nat, q: nat)
    requires TypeApartments(ts).Ok?
    requires i < |ts| && q < PlanLeaves(ts[i].availableFloorPlans)
    ensures BedsOf(ts[i].floorPlanTypeCode).Ok?
    ensures q < |PlanApartments(ts[i].availableFloorPlans, BedsOf(ts[i].floorPlanTypeCode).value)|
    ensures TypeLeaves(ts[..i]) + q < |TypeApartments(ts).value|
    ensures TypeApartments(ts).value[TypeLeaves(ts[..i]) + q]
            == PlanApartments(ts[i].availableFloorPlans, BedsOf(ts[i].floorPlanTypeCode).value)[q]
    decreases |ts|
  {
    var beds := BedsOf(ts[0].floorPlanTypeCode).value;
    var head := PlanApartments(ts[0].availableFloorPlans, beds);
    assert TypeApartments(ts[1..]).Ok?;
    assert TypeApartments(ts).value == head + TypeApartments(ts[1..]).value;
    PlanApartmentsLength(ts[0].availableFloorPlans, beds);
    TypeApartmentsLength(ts[1..]);
    if i == 0 {
      assert ts[..0] == [];
    } else {
      assert ts[..i][0] == ts[0] && ts[..i][1..] == ts[1..][..i - 1];
      assert ts[1..][i - 1] == ts[i];
      TypeOffset(ts[1..], i - 1, q);
      PlanApartmentsLength(ts[i].availableFloorPlans, BedsOf(ts[i].floorPlanTypeCode).value);
    }
  }

  /**
   * Nested-loop order: the entry at type i, plan j, package k, position l is
   * yielded after all the leaves of the earlier types, plans and packages, and
   * carries its plan's estimated size and its type's bedroom digit.
   */
  lemma TypeApartmentsAt(ts: seq<FloorPlanType>, i: nat, j: nat, k: nat, l: nat)
    requires TypeApartments(ts).Ok?
    requires i < |ts| && j < |ts[i].availableFloorPlans|
    requires k < |ts[i].availableFloorPlans[j].finishPackages|
    requires l < |ts[i].availableFloorPlans[j].finishPackages[k].apartments|
    ensures BedsOf(ts[i].floorPlanTypeCode).Ok?
    ensures var plan := ts[i].availableFloorPlans[j];
            var pos := TypeLeaves(ts[..i]) + PlanLeaves(ts[i].availableFloorPlans[..j])
                       + PackageLeaves(plan.finishPackages[..k]) + l;
            pos < |TypeApartments(ts).value|
            && TypeApartments(ts).value[pos]
               == Apartment(plan.finishPackages[k].apartments[l].apartmentNumber,
                            plan.finishPackages[k].apartments[l].pricing.effectiveRent,
                            plan.estimatedSize,
                            BedsOf(ts[i].floorPlanTypeCode).value)
  {
    var plans := ts[i].availableFloorPlans;
    var code := BedsOf(ts[i].floorPlanTypeCode);
    var beds := if code.Ok? then code.value else 0;
    var q := PlanLeaves(plans[..j]) + PackageLeaves(plans[j].finishPackages[..k]) + l;
    PlanApartmentsAt(plans, beds, j, k, l);
    PlanApartmentsLength(plans, beds);
    TypeOffset(ts, i, q);
  }
}

/**
 * Python's `sorted(apartments, key=lambda x: x.unit)`: a stable sort by unit
 * identifier under Python's string ordering (lexicographic by code point).
 */
module UnitOrder {
  import opened Listing

  /** Python's `a <= b` on strings. */
  predicate UnitLe(a: string, b: string)
    decreases |a|
  {
    |a| == 0 || (|b| > 0 && (a[0] < b[0] || (a[0] == b[0] && UnitLe(a[1..], b[1..]))))
  }

  lemma {:induction false} UnitLeReflexive(a: string)
    ensures UnitLe(a, a)
    decreases |a|
  {
    if |a| > 0 { UnitLeReflexive(a[1..]); }
  }

  lemma {:induction false} UnitLeTotal(a: string, b: string)
    ensures UnitLe(a, b) || UnitLe(b, a)
    decreases |a|
  {
    if |a| > 0 && |b| > 0 && a[0] == b[0] { UnitLeTotal(a[1..], b[1..]); }
  }

  lemma {:induction false} UnitLeTransitive(a: string, b: string, c: string)
    requires UnitLe(a, b) && UnitLe(b, c)
    ensures UnitLe(a, c)
    decreases |a|
  {
    if |a| > 0 && a[0] == b[0] && b[0] == c[0] { UnitLeTransitive(a[1..], b[1..], c[1..]); }
  }

  /** Non-decreasing by unit. */
  ghost predicate SortedByUnit(s: seq<Apartment>)
  {
    forall i, j :: 0 <= i < j < |s| ==> UnitLe(s[i].unit, s[j].unit)
  }

  /** The apartments of `s` whose unit is `k`, in their order in `s`. */
  function WithUnit(s: seq<Apartment>, k: string): seq<Apartment>
  {
    if s == [] then [] else (if s[0].unit == k then [s[0]] else []) + WithUnit(s[1..], k)
  }

  /** Puts `x` before the first element whose unit is not below its own. */
  function Insert(x: Apartment, s: seq<Apartment>): seq<Apartment>
  {
    if s == [] then [x]
    else if UnitLe(x.unit, s[0].unit) then [x] + s
    else [s[0]] + Insert(x, s[1..])
  }

  /** Insertion sort: the head goes before every equal unit of the sorted tail, so the sort is stable. */
  function SortByUnit(s: seq<Apartment>): seq<Apartment>
  {
    if s == [] then [] else Insert(s[0], SortByUnit(s[1..]))
  }

  lemma {:induction false} InsertSorted(x: Apartment, s: seq<Apartment>)
    requires SortedByUnit(s)
    ensures SortedByUnit(Insert(x, s))
    ensures multiset(Insert(x, s)) == multiset(s) + multiset{x}
    decreases |s|
  {
    if s == [] {
    } else if UnitLe(x.unit, s[0].unit) {
      var r := [x] + s;
      forall i, j | 0 <= i < j < |r| ensures UnitLe(r[i].unit, r[j].unit) {
        if i == 0 && j > 1 { UnitLeTransitive(x.unit, s[0].unit, s[j - 1].unit); }
      }
    } else {
      UnitLeTotal(x.unit, s[0].unit);
      InsertSorted(x, s[1..]);
      var t := Insert(x, s[1..]);
      var r := [s[0]] + t;
      assert s == [s[0]] + s[1..];
      forall i, j | 0 <= i < j < |r| ensures UnitLe(r[i].unit, r[j].unit) {
        if i == 0 {
          // every element of t is x or an element of s[1..]
          assert r[j] in multiset(t);
          assert r[j] == x || r[j] in multiset(s[1..]);
          if r[j] != x {
            var m :| 0 <= m < |s[1..]| && s[1..][m] == r[j];
            assert s[m + 1] == r[j];
          }
        }
      }
    }
  }

  lemma {:induction false} InsertWithUnit(x: Apartment, s: seq<Apartment>, k: string)
    ensures WithUnit(Insert(x, s), k) == (if x.unit == k then [x] else []) + WithUnit(s, k)
    decreases |s|
  {
    if s != [] && !UnitLe(x.unit, s[0].unit) {
      InsertWithUnit(x, s[1..], k);
      if x.unit == k && s[0].unit == k { UnitLeReflexive(k); }
      assert ([s[0]] + Insert(x, s[1..]))[1..] == Insert(x, s[1..]);
    } else if s != [] {
      assert ([x] + s)[1..] == s;
    }
  }

  /**
   * The sort is a permutation, its result is non-decreasing by unit, and
   * apartments sharing a unit keep their relative order (stability).
   */
  lemma {:induction false} SortByUnitCorrect(s: seq<Apartment>)
    ensures SortedByUnit(SortByUnit(s))
    ensures multiset(SortByUnit(s)) == multiset(s)
    ensures forall k :: WithUnit(SortByUnit(s), k) == WithUnit(s, k)
    decreases |s|
  {
    if s != [] {
      SortByUnitCorrect(s[1..]);
      InsertSorted(s[0], SortByUnit(s[1..]));
      assert s == [s[0]] + s[1..];
      forall k ensures WithUnit(SortByUnit(s), k) == WithUnit(s, k) {
        InsertWithUnit(s[0], SortByUnit(s[1..]), k);
      }
    }
  }
}

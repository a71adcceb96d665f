/** Test collection: one test case per (ship, component kind) pair of the
    original database, ship-major, kinds in weapon-hull-engine order. */
module Enumeration {
  import opened Basics
  import opened Schema
  import opened Dataset

  /** The m-th case is ship `m / 3` with kind `m % 3`: ship-major order. */
  predicate IsCrossProduct(shipIds: seq<Id>, cases: seq<(Id, Kind)>)
  {
    && |cases| == |Kinds| * |shipIds|
    && forall m :: 0 <= m < |cases| ==> cases[m] == (shipIds[m / |Kinds|], Kinds[m % |Kinds|])
  }

  /** The nested loop of `pytest_generate_tests` over the ship ids and the kinds. */
  method TestCases(shipIds: seq<Id>) returns (cases: seq<(Id, Kind)>)
    ensures IsCrossProduct(shipIds, cases)
  {
    cases := [];
    for i := 0 to |shipIds|
      invariant |cases| == 3 * i
      invariant forall m :: 0 <= m < |cases| ==> cases[m] == (shipIds[m / 3], Kinds[m % 3])
    {
      for j := 0 to |Kinds|
        invariant |cases| == 3 * i + j
        invariant forall m :: 0 <= m < |cases| ==> cases[m] == (shipIds[m / 3], Kinds[m % 3])
      {
        assert (3 * i + j) / 3 == i && (3 * i + j) % 3 == j;
        cases := cases + [(shipIds[i], Kinds[j])];
      }
    }
  }

  /** Collected from the ships table, the cases are 3·|ships| pairs, and a
      (ship, kind) pair is a case exactly when the ship is in the table. */
  lemma CrossProductMembers(db: Db, shipIds: seq<Id>, cases: seq<(Id, Kind)>)
    requires ListsShips(db, shipIds)
    requires IsCrossProduct(shipIds, cases)
    ensures |cases| == 3 * |db.ships|
    ensures forall s, k :: (s, k) in cases <==> s in db.ships
  {
    ListingLength(db, shipIds);
    forall s, k | s in db.ships
      ensures (s, k) in cases
    {
      var i :| 0 <= i < |shipIds| && shipIds[i] == s;
      var j := match k case Weapon => 0 case Hull => 1 case Engine => 2;
      assert Kinds[j] == k;
      var m := 3 * i + j;
      assert m / 3 == i && m % 3 == j;
      assert cases[m] == (s, k);
    }
  }

  /** Collected from the ships table, whose ship ids are a primary key, each
      (ship, kind) case occurs exactly once. */
  lemma CrossProductDistinct(db: Db, shipIds: seq<Id>, cases: seq<(Id, Kind)>)
    requires ListsShips(db, shipIds)
    requires IsCrossProduct(shipIds, cases)
    ensures Distinct(cases)
  {
    forall m, n | 0 <= m < n < |cases|
      ensures cases[m] != cases[n]
    {
    }
  }
}

/** The per-(ship, kind) consistency test: resolve the ship's reference in the
    original and the randomized database and report the first discrepancy, in
    the fixed order of the checks of `test_ship_component_changes`. */
module Comparator {
  import opened Basics
  import opened Schema
  import opened Dataset

  /** The outcome of one test case; each failure carries what its message reports. */
  datatype Verdict =
    | Pass
    | MissingId(ship: Id, kind: Kind, original: Option<Id>, randomized: Option<Id>)
    | ReferenceMismatch(ship: Id, expectedRef: Id, actualRef: Id)
    | OriginalParamsMissing(component: Id, kind: Kind)
    | RandomizedParamsMissing(component: Id, kind: Kind)
    | ParamMissing(ship: Id, component: Id, param: Param)
    | ValueMismatch(ship: Id, component: Id, param: Param, expected: int, actual: int)

  /** The ship's reference column for kind `k`, or `None` when the ship has no row. */
  function FetchShipComponentId(db: Db, ship: Id, k: Kind): (r: Option<Id>)
    ensures r.None? <==> ship !in db.ships
    ensures r.Some? ==> r.value == db.ships[ship].Ref(k)
  {
    if ship in db.ships then Some(db.ships[ship].Ref(k)) else None
  }

  /** Python's `dict(zip(names, values))`: pairs names with values up to the
      shorter of the two. */
  function Zip(ps: seq<Param>, row: Row): (m: map<Param, int>)
    requires Distinct(ps)
    ensures forall i :: 0 <= i < |ps| && i < |row| ==> ps[i] in m && m[ps[i]] == row[i]
    ensures forall p :: p in m ==> p in ps
    decreases |ps|
  {
    if |ps| == 0 || |row| == 0 then map[]
    else
      var rest := Zip(ps[1..], row[1..]);
      assert forall i :: 1 <= i < |ps| ==> ps[i] == ps[1..][i - 1];
      rest[ps[0] := row[0]]
  }

  /** The parameters of component `id` of kind `k`, by name; empty when the row is absent. */
  function FetchComponentParams(db: Db, id: Id, k: Kind): (m: map<Param, int>)
    ensures id !in db.Table(k) ==> m == map[]
    ensures id in db.Table(k) ==>
      (forall i :: 0 <= i < |Params(k)| && i < |db.Table(k)[id]| ==> Params(k)[i] in m && m[Params(k)[i]] == db.Table(k)[id][i])
    ensures forall p :: p in m ==> p in Params(k)
  {
    ParamsDistinct(k);
    if id in db.Table(k) then Zip(Params(k), db.Table(k)[id]) else map[]
  }

  /** Every parameter of `ps` the original record has is present with the same value in the randomized one. */
  predicate Agree(ps: seq<Param>, o: map<Param, int>, r: map<Param, int>)
  {
    forall p :: p in ps && p in o ==> p in r && o[p] == r[p]
  }

  /** The loop over the original record's items: the first parameter, in list
      order, that the randomized record lacks or holds with another value. */
  function CompareParams(ship: Id, id: Id, ps: seq<Param>, o: map<Param, int>, r: map<Param, int>): (v: Verdict)
    ensures v.Pass? || v.ParamMissing? || v.ValueMismatch?
    ensures v.Pass? <==> Agree(ps, o, r)
    ensures v.ParamMissing? ==>
      && v.ship == ship && v.component == id
      && v.param in ps && v.param in o && v.param !in r
      && Agree(ps[..IndexOf(ps, v.param)], o, r)
    ensures v.ValueMismatch? ==>
      && v.ship == ship && v.component == id
      && v.param in ps && v.param in o && v.param in r
      && v.expected == o[v.param] && v.actual == r[v.param] && v.expected != v.actual
      && Agree(ps[..IndexOf(ps, v.param)], o, r)
    decreases |ps|
  {
    if |ps| == 0 then Pass
    else
      var p := ps[0];
      if p !in o then
        var v := CompareParams(ship, id, ps[1..], o, r);
        if !v.Pass? then PrefixAgree(ps, o, r, v); v else v
      else if p !in r then ParamMissing(ship, id, p)
      else if o[p] != r[p] then ValueMismatch(ship, id, p, o[p], r[p])
      else
        var v := CompareParams(ship, id, ps[1..], o, r);
        if !v.Pass? then PrefixAgree(ps, o, r, v); v else v
  }

  /** One step of `CompareParams`: a verdict on `ps[1..]` about a parameter
      that `ps[0]` does not disagree on is first in `ps` as well. */
  lemma PrefixAgree(ps: seq<Param>, o: map<Param, int>, r: map<Param, int>, v: Verdict)
    requires 0 < |ps|
    requires ps[0] in o ==> ps[0] in r && o[ps[0]] == r[ps[0]]
    requires v.ParamMissing? || v.ValueMismatch?
    requires v.param in ps[1..] && v.param in o
    requires v.ParamMissing? ==> v.param !in r
    requires v.ValueMismatch? ==> v.param in r && o[v.param] != r[v.param]
    requires Agree(ps[1..][..IndexOf(ps[1..], v.param)], o, r)
    ensures v.param in ps && Agree(ps[..IndexOf(ps, v.param)], o, r)
  {
    var j := IndexOf(ps[1..], v.param);
    assert ps[0] != v.param;
    assert IndexOf(ps, v.param) == 1 + j;
    assert ps[..1 + j] == [ps[0]] + ps[1..][..j];
  }

  /** A zipped record holds exactly as many parameters as the shorter of the
      names and the values. */
  lemma {:induction false} ZipSize(ps: seq<Param>, row: Row)
    requires Distinct(ps)
    ensures |Zip(ps, row)| == if |ps| < |row| then |ps| else |row|
    decreases |ps|
  {
    if |ps| != 0 && |row| != 0 {
      var rest := Zip(ps[1..], row[1..]);
      ZipSize(ps[1..], row[1..]);
      assert ps[0] !in rest;
    }
  }

  /** A fetched record is empty exactly when the component is absent or its
      row holds no values, the two cases the test reports as missing. */
  lemma FetchedEmptyIff(db: Db, id: Id, k: Kind)
    ensures FetchComponentParams(db, id, k) == map[] <==> id !in db.Table(k) || |db.Table(k)[id]| == 0
  {
    if id in db.Table(k) {
      ParamsDistinct(k);
      ZipSize(Params(k), db.Table(k)[id]);
    }
  }

  /** The verdict of `test_ship_component_changes` for one (ship, kind) pair. */
  function Check(orig: Db, rand: Db, ship: Id, k: Kind): Verdict
  {
    var o := FetchShipComponentId(orig, ship, k);
    var r := FetchShipComponentId(rand, ship, k);
    if o.None? || r.None? then MissingId(ship, k, o, r)
    else if o.value != r.value then ReferenceMismatch(ship, o.value, r.value)
    else
      var op := FetchComponentParams(orig, o.value, k);
      var rp := FetchComponentParams(rand, o.value, k);
      if op == map[] then OriginalParamsMissing(o.value, k)
      else if rp == map[] then RandomizedParamsMissing(o.value, k)
      else CompareParams(ship, o.value, Params(k), op, rp)
  }

  /** The test looks at the ship rows first: a ship missing from either
      database is reported with the ids found, and otherwise differing
      references are reported with the original id expected and the
      randomized id actual. */
  lemma CheckOrderShips(orig: Db, rand: Db, ship: Id, k: Kind)
    ensures var v := Check(orig, rand, ship, k);
      v.MissingId? <==> ship !in orig.ships || ship !in rand.ships
    ensures var v := Check(orig, rand, ship, k);
      v.MissingId? ==>
      v.ship == ship && v.kind == k
      && (v.original.Some? <==> ship in orig.ships) && (v.randomized.Some? <==> ship in rand.ships)
    ensures var v := Check(orig, rand, ship, k);
      v.ReferenceMismatch? <==>
      ship in orig.ships && ship in rand.ships && orig.ships[ship].Ref(k) != rand.ships[ship].Ref(k)
    ensures var v := Check(orig, rand, ship, k);
      v.ReferenceMismatch? ==>
      v.ship == ship && v.expectedRef == orig.ships[ship].Ref(k) && v.actualRef == rand.ships[ship].Ref(k)
  {
  }

  /** With equal references, the test then looks up the component records:
      first in the original database, then in the randomized one, and an
      empty or absent record is reported with its id and kind. */
  lemma CheckOrderRecords(orig: Db, rand: Db, ship: Id, k: Kind)
    ensures var v := Check(orig, rand, ship, k);
      v.OriginalParamsMissing? <==>
      && ship in orig.ships && ship in rand.ships && orig.ships[ship].Ref(k) == rand.ships[ship].Ref(k)
      && (orig.ships[ship].Ref(k) !in orig.Table(k) || |orig.Table(k)[orig.ships[ship].Ref(k)]| == 0)
    ensures var v := Check(orig, rand, ship, k);
      v.RandomizedParamsMissing? <==>
      && ship in orig.ships && ship in rand.ships && orig.ships[ship].Ref(k) == rand.ships[ship].Ref(k)
      && orig.ships[ship].Ref(k) in orig.Table(k) && |orig.Table(k)[orig.ships[ship].Ref(k)]| != 0
      && (orig.ships[ship].Ref(k) !in rand.Table(k) || |rand.Table(k)[orig.ships[ship].Ref(k)]| == 0)
    ensures var v := Check(orig, rand, ship, k);
      (v.OriginalParamsMissing? || v.RandomizedParamsMissing?) ==>
      v.component == orig.ships[ship].Ref(k) && v.kind == k
  {
    var o, r := FetchShipComponentId(orig, ship, k), FetchShipComponentId(rand, ship, k);
    if o.Some? && r.Some? && o.value == r.value {
      FetchedEmptyIff(orig, o.value, k);
      FetchedEmptyIff(rand, o.value, k);
    }
  }

  /** The ship is present and its `k` reference resolves to a row. */
  predicate Resolves(db: Db, ship: Id, k: Kind)
  {
    ship in db.ships && db.ships[ship].Ref(k) in db.Table(k)
  }

  /** The row the ship's `k` reference points at. */
  function ReferencedRow(db: Db, ship: Id, k: Kind): Row
    requires Resolves(db, ship, k)
  {
    db.Table(k)[db.ships[ship].Ref(k)]
  }

  /** On well-shaped tables, a fetched record holds every parameter of the kind. */
  lemma FetchedFull(db: Db, id: Id, k: Kind)
    requires db.WellShaped()
    requires id in db.Table(k)
    ensures FetchComponentParams(db, id, k) != map[]
    ensures forall p :: p in Params(k) ==> p in FetchComponentParams(db, id, k)
  {
    assert WellShapedTable(db.Table(k), k);
    assert Params(k)[0] in FetchComponentParams(db, id, k);
  }

  /** With both references equal and resolved on well-shaped tables, the
      verdict is the parameter comparison of the two rows. */
  lemma CheckComparesRows(orig: Db, rand: Db, ship: Id, k: Kind)
    requires orig.WellShaped() && rand.WellShaped()
    requires Resolves(orig, ship, k) && Resolves(rand, ship, k)
    requires orig.ships[ship].Ref(k) == rand.ships[ship].Ref(k)
    ensures Check(orig, rand, ship, k)
      == CompareParams(ship, orig.ships[ship].Ref(k), Params(k),
                       FetchComponentParams(orig, orig.ships[ship].Ref(k), k),
                       FetchComponentParams(rand, orig.ships[ship].Ref(k), k))
  {
    FetchedFull(orig, orig.ships[ship].Ref(k), k);
    FetchedFull(rand, orig.ships[ship].Ref(k), k);
  }

  /** Fetched records of two well-shaped rows agree on every parameter
      exactly when the rows are equal. */
  lemma AgreeIffRowsEqual(orig: Db, rand: Db, id: Id, k: Kind)
    requires orig.WellShaped() && rand.WellShaped()
    requires id in orig.Table(k) && id in rand.Table(k)
    ensures Agree(Params(k), FetchComponentParams(orig, id, k), FetchComponentParams(rand, id, k))
      <==> orig.Table(k)[id] == rand.Table(k)[id]
  {
    var ps := Params(k);
    var o, r := orig.Table(k)[id], rand.Table(k)[id];
    var om, rm := FetchComponentParams(orig, id, k), FetchComponentParams(rand, id, k);
    assert |o| == |ps| && |r| == |ps| by {
      assert WellShapedTable(orig.Table(k), k);
      assert WellShapedTable(rand.Table(k), k);
    }
    if Agree(ps, om, rm) {
      forall i | 0 <= i < |o|
        ensures o[i] == r[i]
      {
        assert ps[i] in ps && ps[i] in om;
        assert om[ps[i]] == rm[ps[i]];
      }
      assert o == r;
    } else {
      var p :| p in ps && p in om && !(p in rm && om[p] == rm[p]);
      var i := IndexOf(ps, p);
      assert ps[i] in rm;
      assert om[ps[i]] == o[i] && rm[ps[i]] == r[i];
    }
  }

  /** On well-shaped tables a test passes exactly when the ship is in both
      databases with the same reference, and that reference resolves in both
      to identical rows. */
  lemma CheckPassIff(orig: Db, rand: Db, ship: Id, k: Kind)
    requires orig.WellShaped() && rand.WellShaped()
    ensures Check(orig, rand, ship, k).Pass? <==>
      && Resolves(orig, ship, k) && Resolves(rand, ship, k)
      && orig.ships[ship].Ref(k) == rand.ships[ship].Ref(k)
      && ReferencedRow(orig, ship, k) == ReferencedRow(rand, ship, k)
  {
    if Resolves(orig, ship, k) && Resolves(rand, ship, k) && orig.ships[ship].Ref(k) == rand.ships[ship].Ref(k) {
      CheckComparesRows(orig, rand, ship, k);
      AgreeIffRowsEqual(orig, rand, orig.ships[ship].Ref(k), k);
    }
  }

  /** The test never reports a parameter missing from the randomized record
      when both tables have the declared columns. */
  lemma NoParamMissing(orig: Db, rand: Db, ship: Id, k: Kind)
    requires orig.WellShaped() && rand.WellShaped()
    ensures !Check(orig, rand, ship, k).ParamMissing?
  {
    if Resolves(orig, ship, k) && Resolves(rand, ship, k) && orig.ships[ship].Ref(k) == rand.ships[ship].Ref(k) {
      CheckComparesRows(orig, rand, ship, k);
    }
  }

  /** When the rows differ, the test reports the first differing column, in
      parameter order, with the original value as expected and the
      randomized value as actual. */
  lemma CheckFirstDifference(orig: Db, rand: Db, ship: Id, k: Kind, j: nat)
    requires orig.WellShaped() && rand.WellShaped()
    requires Resolves(orig, ship, k) && Resolves(rand, ship, k)
    requires orig.ships[ship].Ref(k) == rand.ships[ship].Ref(k)
    requires j < |Params(k)|
    requires ReferencedRow(orig, ship, k)[j] != ReferencedRow(rand, ship, k)[j]
    requires forall i :: 0 <= i < j ==> ReferencedRow(orig, ship, k)[i] == ReferencedRow(rand, ship, k)[i]
    ensures Check(orig, rand, ship, k)
      == ValueMismatch(ship, orig.ships[ship].Ref(k), Params(k)[j],
                       ReferencedRow(orig, ship, k)[j], ReferencedRow(rand, ship, k)[j])
  {
    CheckComparesRows(orig, rand, ship, k);
    var id := orig.ships[ship].Ref(k);
    var ps := Params(k);
    var o, r := ReferencedRow(orig, ship, k), ReferencedRow(rand, ship, k);
    var om, rm := FetchComponentParams(orig, id, k), FetchComponentParams(rand, id, k);
    assert |o| == |ps| && |r| == |ps| by {
      assert WellShapedTable(orig.Table(k), k);
      assert WellShapedTable(rand.Table(k), k);
    }
    FetchedFull(rand, id, k);
    var v := Check(orig, rand, ship, k);
    assert !Agree(ps, om, rm) by {
      assert ps[j] in ps;
    }
    assert v.ValueMismatch?;
    assert IndexOf(ps, v.param) == j;
  }
}

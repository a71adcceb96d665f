/** The mutate-then-compare round trip: on every (ship, kind) test case, the
    comparator fails exactly where the randomizer changed something, and
    reports that change. */
module RoundTrip {
  import opened Basics
  import opened Schema
  import opened Dataset
  import opened Comparator
  import opened Randomizer

  /** A test case on a pair whose reference and row are untouched passes. */
  lemma UntouchedPasses(orig: Db, rand: Db, ship: Id, k: Kind)
    requires orig.WellShaped() && rand.WellShaped() && orig.Consistent()
    requires ship in orig.ships && ship in rand.ships
    requires rand.ships[ship].Ref(k) == orig.ships[ship].Ref(k)
    requires orig.ships[ship].Ref(k) in rand.Table(k)
    requires rand.Table(k)[orig.ships[ship].Ref(k)] == orig.Table(k)[orig.ships[ship].Ref(k)]
    ensures Check(orig, rand, ship, k) == Pass
  {
    CheckPassIff(orig, rand, ship, k);
  }

  /** Strategy A round trip: the test of (ship, kind) fails with a reference
      mismatch, original id expected and replacement actual, exactly when
      this ship's swap hit this kind and had a candidate; otherwise it passes. */
  lemma SwapVerdict(db: Db, choices: map<Id, SwapChoice>, ship: Id, k: Kind)
    requires db.WellShaped() && db.Consistent()
    requires ValidSwaps(db, choices)
    requires ship in db.ships
    ensures Check(db, SwapAll(db, choices), ship, k)
      == if k == choices[ship].kind && Alternatives(db, k, db.ships[ship].Ref(k)) != {}
         then ReferenceMismatch(ship, db.ships[ship].Ref(k), choices[ship].replacement)
         else Pass
  {
    var d := SwapAll(db, choices);
    var c := choices[ship];
    assert d.ships[ship] == SwapShip(db, ship, c);
    SwapAllEffect(db, choices);
    SwapAllWellShaped(db, choices);
    if k == c.kind && Alternatives(db, k, db.ships[ship].Ref(k)) != {} {
      assert d.ships[ship].Ref(k) == c.replacement;
    } else {
      assert d.ships[ship].Ref(k) == db.ships[ship].Ref(k);
      UntouchedPasses(db, d, ship, k);
    }
  }

  /** What the test reports for one kind whose table was rewritten by
      `edits` into `d`: a pass when the ship's component was not sampled,
      and otherwise the outcome of each write to it. */
  predicate VerdictFollowsEdits(db: Db, d: Db, ship: Id, k: Kind, edits: seq<ParamEdit>)
    requires db.WellShaped() && ship in db.ships
    requires ValidEdits(db.Table(k), k, edits)
  {
    var id := db.ships[ship].Ref(k);
    && (id !in EditedIds(edits) ==> Check(db, d, ship, k) == Pass)
    && (forall i :: 0 <= i < |edits| && edits[i].id == id ==>
          Check(db, d, ship, k) == WriteVerdict(db, ship, k, edits[i]))
  }

  /** The verdict a single write to the ship's component produces: a pass when
      it rewrote the old value, else a mismatch with the old value expected and
      the new value actual. */
  function WriteVerdict(db: Db, ship: Id, k: Kind, e: ParamEdit): Verdict
    requires db.WellShaped() && ship in db.ships
    requires e.id == db.ships[ship].Ref(k) && e.id in db.Table(k) && e.param in Params(k)
  {
    var before := db.Table(k)[e.id][Column(k, e.param)];
    if before == e.value then Pass else ValueMismatch(ship, e.id, e.param, before, e.value)
  }

  /** The test of a ship whose component was written once by `e`. */
  lemma EditedComponentVerdict(db: Db, d: Db, k: Kind, edits: seq<ParamEdit>, ship: Id, i: nat)
    requires db.WellShaped() && db.Consistent() && d.WellShaped()
    requires ValidEdits(db.Table(k), k, edits)
    requires d.ships == db.ships
    requires d.Table(k) == WriteEdits(db.Table(k), k, edits)
    requires ship in db.ships
    requires i < |edits| && edits[i].id == db.ships[ship].Ref(k)
    ensures Check(db, d, ship, k) == WriteVerdict(db, ship, k, edits[i])
  {
    var e := edits[i];
    var id := e.id;
    var row := db.Table(k)[id];
    var j := Column(k, e.param);
    assert d.Table(k)[id] == SetParam(row, k, e.param, e.value);
    if row[j] == e.value {
      assert d.Table(k)[id] == row;
      UntouchedPasses(db, d, ship, k);
    } else {
      CheckFirstDifference(db, d, ship, k, j);
    }
  }

  /** The verdict on one kind whose table was rewritten by `edits` while the
      ships table stayed as it was. */
  lemma EditedKindVerdict(db: Db, d: Db, k: Kind, edits: seq<ParamEdit>, ship: Id)
    requires db.WellShaped() && db.Consistent() && d.WellShaped()
    requires ValidEdits(db.Table(k), k, edits)
    requires d.ships == db.ships
    requires d.Table(k) == WriteEdits(db.Table(k), k, edits)
    requires ship in db.ships
    ensures VerdictFollowsEdits(db, d, ship, k, edits)
  {
    var id := db.ships[ship].Ref(k);
    if id !in EditedIds(edits) {
      UntouchedPasses(db, d, ship, k);
    }
    forall i | 0 <= i < |edits| && edits[i].id == id
      ensures Check(db, d, ship, k) == WriteVerdict(db, ship, k, edits[i])
    {
      EditedComponentVerdict(db, d, k, edits, ship, i);
    }
  }

  /** Strategy B round trip: the test of (ship, kind) passes when the
      referenced component was not sampled, or was rewritten with its old
      value; otherwise it fails at the rewritten parameter, old value
      expected, new value actual. */
  lemma ParameterChangeVerdict(db: Db, weaponEdits: seq<ParamEdit>, hullEdits: seq<ParamEdit>, engineEdits: seq<ParamEdit>,
                               ship: Id, k: Kind)
    requires db.WellShaped() && db.Consistent()
    requires ValidKindDraws(db, Weapon, weaponEdits)
    requires ValidKindDraws(db, Hull, hullEdits)
    requires ValidKindDraws(db, Engine, engineEdits)
    requires |db.weapons| > 0 && |db.hulls| > 0 && |db.engines| > 0
    requires ship in db.ships
    ensures ParameterChange(db, weaponEdits, hullEdits, engineEdits).Success?
    ensures ValidEdits(db.Table(k), k, EditsFor(k, weaponEdits, hullEdits, engineEdits))
    ensures VerdictFollowsEdits(db, ParameterChange(db, weaponEdits, hullEdits, engineEdits).value,
                                ship, k, EditsFor(k, weaponEdits, hullEdits, engineEdits))
  {
    ParameterChangeSucceeds(db, weaponEdits, hullEdits, engineEdits);
    var d := ParameterChange(db, weaponEdits, hullEdits, engineEdits).value;
    var edits := EditsFor(k, weaponEdits, hullEdits, engineEdits);
    assert d.Table(k) == WriteEdits(db.Table(k), k, edits);
    DrawsAreEdits(db, k, edits);
    EditedKindVerdict(db, d, k, edits, ship);
  }
}

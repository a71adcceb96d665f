/** The two mutation strategies the session fixture applies to the copy of
    the database. Every random choice is an explicit input, constrained to the
    values the corresponding `random` call can return. */
module Randomizer {
  import opened Basics
  import opened Schema
  import opened Dataset

  // ---------------------------------------------------------------------------
  // Strategy A: component swap
  // ---------------------------------------------------------------------------

  /** The draws for one ship: the kind whose reference to change, and the id
      `random.choice` picks among the other components of that kind. */
  datatype SwapChoice = SwapChoice(kind: Kind, replacement: Id)

  /** The ids of kind `k` other than `current`: the candidates a swap picks from. */
  function Alternatives(db: Db, k: Kind, current: Id): set<Id>
  {
    db.Table(k).Keys - {current}
  }

  /** The replacement is one of the candidates whenever there is any candidate. */
  predicate ValidSwap(db: Db, ship: Id, c: SwapChoice)
    requires ship in db.ships
  {
    var alt := Alternatives(db, c.kind, db.ships[ship].Ref(c.kind));
    alt != {} ==> c.replacement in alt
  }

  /** One choice per ship, each a possible draw. */
  predicate ValidSwaps(db: Db, choices: map<Id, SwapChoice>)
  {
    forall s :: s in db.ships ==> s in choices && ValidSwap(db, s, choices[s])
  }

  /** The ship row after its swap: the chosen reference moves to the
      replacement when a candidate exists, and nothing else changes. */
  function SwapShip(db: Db, ship: Id, c: SwapChoice): (s: Ship)
    requires ship in db.ships
    requires ValidSwap(db, ship, c)
    ensures forall k :: k != c.kind ==> s.Ref(k) == db.ships[ship].Ref(k)
    ensures Alternatives(db, c.kind, db.ships[ship].Ref(c.kind)) == {} ==> s == db.ships[ship]
    ensures Alternatives(db, c.kind, db.ships[ship].Ref(c.kind)) != {} ==>
      && s.Ref(c.kind) in db.Table(c.kind)
      && s.Ref(c.kind) != db.ships[ship].Ref(c.kind)
  {
    var current := db.ships[ship];
    if Alternatives(db, c.kind, current.Ref(c.kind)) != {} then current.WithRef(c.kind, c.replacement)
    else current
  }

  /** Strategy A as a whole, stated ship by ship: every ship gets its own swap. */
  function SwapAll(db: Db, choices: map<Id, SwapChoice>): (d: Db)
    requires ValidSwaps(db, choices)
    ensures d.ships.Keys == db.ships.Keys
    ensures d == db.(ships := d.ships)
  {
    db.(ships := map s | s in db.ships :: SwapShip(db, s, choices[s]))
  }

  /** What strategy A changes: at most one reference per ship, of the chosen
      kind only, to another existing component of that kind, and exactly when
      such a component exists. Component tables are untouched. */
  lemma SwapAllEffect(db: Db, choices: map<Id, SwapChoice>)
    requires ValidSwaps(db, choices)
    ensures forall k :: SwapAll(db, choices).Table(k) == db.Table(k)
    ensures forall s, k :: s in db.ships && k != choices[s].kind ==>
      SwapAll(db, choices).ships[s].Ref(k) == db.ships[s].Ref(k)
    ensures forall s :: s in db.ships ==>
      var k := choices[s].kind;
      (SwapAll(db, choices).ships[s].Ref(k) != db.ships[s].Ref(k) <==> Alternatives(db, k, db.ships[s].Ref(k)) != {})
    ensures forall s :: s in db.ships && SwapAll(db, choices).ships[s] != db.ships[s] ==>
      SwapAll(db, choices).ships[s].Ref(choices[s].kind) in db.Table(choices[s].kind)
  {
  }

  /** A swap only ever picks an existing component, so references keep resolving. */
  lemma SwapAllConsistent(db: Db, choices: map<Id, SwapChoice>)
    requires ValidSwaps(db, choices)
    requires db.Consistent()
    ensures SwapAll(db, choices).Consistent()
  {
    var d := SwapAll(db, choices);
    forall s, k | s in d.ships
      ensures d.ships[s].Ref(k) in d.Table(k)
    {
      var c := choices[s];
      assert d.ships[s] == SwapShip(db, s, c);
      assert d.Table(k) == db.Table(k);
      if k == c.kind && Alternatives(db, k, db.ships[s].Ref(k)) != {} {
        assert d.ships[s].Ref(k) == c.replacement;
      } else {
        assert d.ships[s].Ref(k) == db.ships[s].Ref(k);
      }
    }
  }

  /** Strategy A keeps the column layout of a well-shaped database. */
  lemma SwapAllWellShaped(db: Db, choices: map<Id, SwapChoice>)
    requires ValidSwaps(db, choices)
    requires db.WellShaped()
    ensures SwapAll(db, choices).WellShaped()
  {
    var d := SwapAll(db, choices);
    assert d.weapons == db.weapons && d.hulls == db.hulls && d.engines == db.engines;
  }

  /** With a single component of a kind, no ship's reference to that kind
      can change: the only candidate is the current one. */
  lemma SingleComponentNeverSwapped(db: Db, choices: map<Id, SwapChoice>, k: Kind)
    requires ValidSwaps(db, choices)
    requires db.Consistent()
    requires |db.Table(k)| == 1
    ensures forall s :: s in db.ships ==> SwapAll(db, choices).ships[s].Ref(k) == db.ships[s].Ref(k)
  {
    forall s | s in db.ships
      ensures SwapAll(db, choices).ships[s].Ref(k) == db.ships[s].Ref(k)
    {
      var current := db.ships[s].Ref(k);
      assert current in db.Table(k).Keys;
      assert |db.Table(k).Keys| == 1;
      assert |db.Table(k).Keys - {current}| == 0;
      assert Alternatives(db, k, current) == {};
    }
  }

  /** The loop of strategy A, visiting the ships in `order`. Only the ships
      table of the copy is written, so each step reads the candidate ids from
      the unchanged component tables and the current reference from the ships
      table as mutated so far. */
  method ComponentSwap(db: Db, order: seq<Id>, choices: map<Id, SwapChoice>) returns (r: Db)
    requires ListsShips(db, order)
    requires ValidSwaps(db, choices)
    ensures r == SwapAll(db, choices)
  {
    var ships := db.ships;
    for i := 0 to |order|
      invariant ships.Keys == db.ships.Keys
      invariant forall j :: 0 <= j < i ==> ships[order[j]] == SwapShip(db, order[j], choices[order[j]])
      invariant forall j :: i <= j < |order| ==> ships[order[j]] == db.ships[order[j]]
    {
      var ship := order[i];
      var c := choices[ship];
      var current := ships[ship].Ref(c.kind);
      var available := Alternatives(db, c.kind, current);
      if available != {} {
        ships := ships[ship := ships[ship].WithRef(c.kind, c.replacement)];
      }
      assert ships[ship] == SwapShip(db, ship, c);
      assert forall j :: i < j < |order| ==> order[j] != ship;
    }
    r := db.(ships := ships);
    forall s | s in db.ships
      ensures ships[s] == SwapShip(db, s, choices[s])
    {
      var j :| 0 <= j < |order| && order[j] == s;
    }
    assert r.ships == SwapAll(db, choices).ships;
  }

  // ---------------------------------------------------------------------------
  // Strategy B: parameter change
  // ---------------------------------------------------------------------------

  /** The draws for one sampled component: the parameter and its new value. */
  datatype ParamEdit = ParamEdit(id: Id, param: Param, value: int)

  /** The failure `random.sample` raises when asked for more ids than exist. */
  datatype SampleError = SampleLargerThanPopulation(kind: Kind, size: nat, population: nat)

  function Max(a: int, b: int): int { if a < b then b else a }
  function Min(a: int, b: int): int { if a < b then a else b }

  /** The upper end of `random.randint(1, max(1, min(bound, n)))`. */
  function SampleLimit(k: Kind, population: nat): (n: nat)
    ensures 1 <= n <= ChangeBound(k)
    ensures 0 < population ==> n <= population
    ensures 0 < population ==> n == Min(ChangeBound(k), population)
    ensures population == 0 ==> n == 1
  {
    Max(1, Min(ChangeBound(k), population))
  }

  /** The sampled ids: distinct members of the table; each edit names a
      parameter of the kind and a value `random.randint(1, 20)` can return. */
  predicate ValidEdits(t: map<Id, Row>, k: Kind, edits: seq<ParamEdit>)
  {
    && (forall i :: 0 <= i < |edits| ==> edits[i].id in t && edits[i].param in Params(k) && InRange(edits[i].value))
    && (forall i, j :: 0 <= i < j < |edits| ==> edits[i].id != edits[j].id)
  }

  /** The ids an edit list touches. */
  function EditedIds(edits: seq<ParamEdit>): set<Id>
  {
    if |edits| == 0 then {} else {edits[0].id} + EditedIds(edits[1..])
  }

  /** `UPDATE ... SET param = value`: one column of a row overwritten. */
  function SetParam(row: Row, k: Kind, p: Param, value: int): (row': Row)
    requires |row| == |Params(k)|
    requires p in Params(k)
    ensures |row'| == |row|
    ensures row'[Column(k, p)] == value
    ensures forall j :: 0 <= j < |row| && j != Column(k, p) ==> row'[j] == row[j]
  {
    row[Column(k, p) := value]
  }

  /** Sampling without replacement: the edits touch exactly as many
      components as were sampled. */
  lemma {:induction false} EditedIdsCount(edits: seq<ParamEdit>)
    requires forall i, j :: 0 <= i < j < |edits| ==> edits[i].id != edits[j].id
    ensures |EditedIds(edits)| == |edits|
    decreases |edits|
  {
    if |edits| > 0 {
      var rest := edits[1..];
      assert forall i :: 1 <= i < |edits| ==> rest[i - 1] == edits[i];
      EditedIdsCount(rest);
      NotEdited(rest, edits[0].id);
    }
  }

  /** Writing one parameter leaves every other parameter of the kind as it was. */
  lemma SetParamOnlyParam(row: Row, k: Kind, p: Param, value: int)
    requires |row| == |Params(k)|
    requires p in Params(k)
    ensures forall q :: q in Params(k) && q != p ==>
      SetParam(row, k, p, value)[Column(k, q)] == row[Column(k, q)]
    ensures InRange(value) && (forall j :: 0 <= j < |row| ==> InRange(row[j])) ==>
      forall j :: 0 <= j < |row| ==> InRange(SetParam(row, k, p, value)[j])
  {
    ParamsDistinct(k);
  }

  /** The update loop over the sampled ids of one kind. */
  function WriteEdits(t: map<Id, Row>, k: Kind, edits: seq<ParamEdit>): (t': map<Id, Row>)
    requires WellShapedTable(t, k)
    requires ValidEdits(t, k, edits)
    ensures t'.Keys == t.Keys
    ensures WellShapedTable(t', k)
    ensures forall id :: id in t && id !in EditedIds(edits) ==> t'[id] == t[id]
    ensures forall i :: 0 <= i < |edits| ==>
      t'[edits[i].id] == SetParam(t[edits[i].id], k, edits[i].param, edits[i].value)
    decreases |edits|
  {
    if |edits| == 0 then t
    else
      var e := edits[0];
      var t1 := t[e.id := SetParam(t[e.id], k, e.param, e.value)];
      var rest := edits[1..];
      assert forall i :: 1 <= i < |edits| ==> rest[i - 1] == edits[i];
      assert forall i :: 1 <= i < |edits| ==> edits[i].id != e.id && t1[edits[i].id] == t[edits[i].id];
      NotEdited(rest, e.id);
      assert WellShapedTable(t1, k) && ValidEdits(t1, k, rest);
      WriteEdits(t1, k, rest)
  }

  /** An id no edit of the list names is not among its edited ids. */
  lemma {:induction false} NotEdited(edits: seq<ParamEdit>, id: Id)
    requires forall i :: 0 <= i < |edits| ==> edits[i].id != id
    ensures id !in EditedIds(edits)
    decreases |edits|
  {
    if |edits| > 0 {
      NotEdited(edits[1..], id);
    }
  }

  /** Strategy B draws new values from the generator's range, so tables stay within it. */
  lemma {:induction false} WriteEditsInRange(t: map<Id, Row>, k: Kind, edits: seq<ParamEdit>)
    requires WellShapedTable(t, k)
    requires ValidEdits(t, k, edits)
    requires ValuesInRange(t)
    ensures ValuesInRange(WriteEdits(t, k, edits))
  {
    var t' := WriteEdits(t, k, edits);
    forall id, j | id in t' && 0 <= j < |t'[id]|
      ensures InRange(t'[id][j])
    {
      if id in EditedIds(edits) {
        EditedIdsHasIndex(edits, id);
        var i :| 0 <= i < |edits| && edits[i].id == id;
        SetParamOnlyParam(t[id], k, edits[i].param, edits[i].value);
      }
    }
  }

  /** An edited id is named by some edit. */
  lemma {:induction false} EditedIdsHasIndex(edits: seq<ParamEdit>, id: Id)
    requires id in EditedIds(edits)
    ensures exists i :: 0 <= i < |edits| && edits[i].id == id
    decreases |edits|
  {
    if edits[0].id != id {
      EditedIdsHasIndex(edits[1..], id);
      var i :| 0 <= i < |edits| - 1 && edits[1..][i].id == id;
      assert edits[i + 1].id == id;
    }
  }

  /** The edit step for one kind: sample `|edits|` ids, then write each. The
      sample fails exactly when it asks for more ids than the table has. */
  function ChangeKind(db: Db, k: Kind, edits: seq<ParamEdit>): (r: Result<Db, SampleError>)
    requires db.WellShaped()
    requires 1 <= |edits| <= SampleLimit(k, |db.Table(k)|)
    requires |edits| <= |db.Table(k)| ==> ValidEdits(db.Table(k), k, edits)
    ensures r.Failure? <==> |db.Table(k)| == 0
    ensures r.Failure? ==> r.error == SampleLargerThanPopulation(k, 1, 0)
    ensures r.Success? ==>
      && r.value.ships == db.ships
      && (forall k' :: k' != k ==> r.value.Table(k') == db.Table(k'))
      && r.value.Table(k) == WriteEdits(db.Table(k), k, edits)
      && r.value.WellShaped()
  {
    if |edits| > |db.Table(k)| then Failure(SampleLargerThanPopulation(k, |edits|, |db.Table(k)|))
    else Success(db.WithTable(k, WriteEdits(db.Table(k), k, edits)))
  }

  /** Well-formed draws for one kind of strategy B. */
  predicate ValidKindDraws(db: Db, k: Kind, edits: seq<ParamEdit>)
  {
    && 1 <= |edits| <= SampleLimit(k, |db.Table(k)|)
    && (|edits| <= |db.Table(k)| ==> ValidEdits(db.Table(k), k, edits))
  }

  /** Strategy B: weapons, then hulls, then engines; the first failed sample
      aborts the pass. */
  function ParameterChange(db: Db, weaponEdits: seq<ParamEdit>, hullEdits: seq<ParamEdit>, engineEdits: seq<ParamEdit>)
    : (r: Result<Db, SampleError>)
    requires db.WellShaped()
    requires ValidKindDraws(db, Weapon, weaponEdits)
    requires ValidKindDraws(db, Hull, hullEdits)
    requires ValidKindDraws(db, Engine, engineEdits)
    ensures r.Failure? <==> (exists k :: |db.Table(k)| == 0)
    ensures r.Failure? ==> r.error.kind == FirstEmpty(db)
    ensures r.Success? ==>
      && r.value.ships == db.ships
      && r.value.weapons == WriteEdits(db.weapons, Weapon, weaponEdits)
      && r.value.hulls == WriteEdits(db.hulls, Hull, hullEdits)
      && r.value.engines == WriteEdits(db.engines, Engine, engineEdits)
  {
    match ChangeKind(db, Weapon, weaponEdits)
    case Failure(e) => Failure(e)
    case Success(d1) =>
      match ChangeKind(d1, Hull, hullEdits)
      case Failure(e) => Failure(e)
      case Success(d2) => ChangeKind(d2, Engine, engineEdits)
  }

  /** The first kind, in weapon-hull-engine order, whose table is empty. */
  function FirstEmpty(db: Db): Kind
  {
    if |db.weapons| == 0 then Weapon else if |db.hulls| == 0 then Hull else Engine
  }

  /** The strategy B draws for kind `k`. */
  function EditsFor(k: Kind, weaponEdits: seq<ParamEdit>, hullEdits: seq<ParamEdit>, engineEdits: seq<ParamEdit>): seq<ParamEdit>
  {
    match k
    case Weapon => weaponEdits
    case Hull => hullEdits
    case Engine => engineEdits
  }

  /** With every table populated, strategy B succeeds and keeps the column layout. */
  lemma ParameterChangeSucceeds(db: Db, weaponEdits: seq<ParamEdit>, hullEdits: seq<ParamEdit>, engineEdits: seq<ParamEdit>)
    requires db.WellShaped()
    requires ValidKindDraws(db, Weapon, weaponEdits)
    requires ValidKindDraws(db, Hull, hullEdits)
    requires ValidKindDraws(db, Engine, engineEdits)
    requires |db.weapons| > 0 && |db.hulls| > 0 && |db.engines| > 0
    ensures ParameterChange(db, weaponEdits, hullEdits, engineEdits).Success?
    ensures ParameterChange(db, weaponEdits, hullEdits, engineEdits).value.WellShaped()
  {
    assert |db.Table(Weapon)| != 0 && |db.Table(Hull)| != 0 && |db.Table(Engine)| != 0;
  }

  /** On a populated table the sample succeeds, so the draws are valid edits. */
  lemma DrawsAreEdits(db: Db, k: Kind, edits: seq<ParamEdit>)
    requires ValidKindDraws(db, k, edits)
    requires |db.Table(k)| > 0
    ensures ValidEdits(db.Table(k), k, edits)
  {
  }
}

/** The generator of the original database: numbered components with random
    attribute values, then ships that each pick one component of every kind.
    The draws of `random.randint` and `random.choice` are inputs. */
module Seed {
  import opened Basics
  import opened Schema
  import opened Dataset

  /** The decimal digit `d`, as Python's `str` writes it. */
  function DigitChar(d: nat): char
    requires d < 10
  {
    ('0' as int + d) as char
  }

  /** Python's `f'{n}'` for a natural number: decimal, no leading zeros. */
  function Decimal(n: nat): (s: string)
    ensures 1 <= |s|
    ensures n >= 10 ==> 2 <= |s|
    decreases n
  {
    if n < 10 then [DigitChar(n)] else Decimal(n / 10) + [DigitChar(n % 10)]
  }

  /** Distinct numbers print differently, so numbered ids never collide. */
  lemma {:induction false} DecimalInjective(a: nat, b: nat)
    requires Decimal(a) == Decimal(b)
    ensures a == b
    decreases a
  {
    if a < 10 && b < 10 {
      assert Decimal(a)[0] == Decimal(b)[0];
    } else if a >= 10 && b >= 10 {
      var sa, sb := Decimal(a), Decimal(b);
      assert sa[|sa| - 1] == sb[|sb| - 1];
      assert a % 10 == b % 10;
      assert sa[..|sa| - 1] == Decimal(a / 10);
      assert sb[..|sb| - 1] == Decimal(b / 10);
      DecimalInjective(a / 10, b / 10);
    }
  }

  /** `prefix` followed by the decimal form of `i`, as `f'{prefix}{i}'`. */
  function NumberedId(prefix: string, i: nat): Id
  {
    prefix + Decimal(i)
  }

  /** The ids `prefix1` .. `prefix<n>`, in order: the id column of `range(1, n + 1)`. */
  function NumberedSeq(prefix: string, n: nat): (ids: seq<Id>)
    ensures |ids| == n
  {
    if n == 0 then [] else NumberedSeq(prefix, n - 1) + [NumberedId(prefix, n)]
  }

  lemma NumberedIdInjective(prefix: string, i: nat, j: nat)
    requires NumberedId(prefix, i) == NumberedId(prefix, j)
    ensures i == j
  {
    assert NumberedId(prefix, i)[|prefix|..] == Decimal(i);
    assert NumberedId(prefix, j)[|prefix|..] == Decimal(j);
    DecimalInjective(i, j);
  }

  /** The i-th id of `NumberedSeq` carries the number i + 1; the ids are distinct. */
  lemma {:induction false} NumberedSeqSpec(prefix: string, n: nat)
    ensures forall i :: 0 <= i < n ==> NumberedSeq(prefix, n)[i] == NumberedId(prefix, i + 1)
    ensures Distinct(NumberedSeq(prefix, n))
  {
    if n > 0 {
      NumberedSeqSpec(prefix, n - 1);
      var ids := NumberedSeq(prefix, n);
      forall i, j | 0 <= i < j < n
        ensures ids[i] != ids[j]
      {
        if ids[i] == ids[j] {
          NumberedIdInjective(prefix, i + 1, j + 1);
        }
      }
    }
  }

  /** The id prefix of a kind's rows. */
  function IdPrefix(k: Kind): string
  {
    match k
    case Weapon => "Weapon-"
    case Hull => "Hull-"
    case Engine => "Engine-"
  }

  const ShipPrefix: string := "Ship-"

  /** One row of `random.randint(1, 20)` draws per component, one draw per column. */
  predicate ValidRolls(k: Kind, rolls: seq<Row>)
  {
    forall i :: 0 <= i < |rolls| ==>
      |rolls[i]| == |Params(k)| && forall j :: 0 <= j < |rolls[i]| ==> InRange(rolls[i][j])
  }

  /** `executemany('INSERT ...')` into an empty table: one row per key, the
      keys being distinct. */
  method InsertRows<V>(ids: seq<Id>, rows: seq<V>) returns (table: map<Id, V>)
    requires |ids| == |rows|
    requires Distinct(ids)
    ensures forall id :: id in table <==> id in ids
    ensures forall i :: 0 <= i < |ids| ==> table[ids[i]] == rows[i]
    ensures |table| == |ids|
  {
    table := map[];
    for i := 0 to |ids|
      invariant forall id :: id in table <==> id in ids[..i]
      invariant forall j :: 0 <= j < i ==> table[ids[j]] == rows[j]
      invariant |table| == i
    {
      assert ids[i] !in ids[..i];
      table := table[ids[i] := rows[i]];
      assert ids[..i + 1] == ids[..i] + [ids[i]];
    }
    assert ids[..|ids|] == ids;
  }

  /** `populate_weapons`, `populate_hulls` and `populate_engines`: `count`
      rows with ids `<Kind>-1` .. `<Kind>-count`, each holding its row of
      draws; returns the table and the ids in order. */
  method PopulateComponents(k: Kind, count: nat, rolls: seq<Row>) returns (table: map<Id, Row>, ids: seq<Id>)
    requires |rolls| == count
    requires ValidRolls(k, rolls)
    ensures ids == NumberedSeq(IdPrefix(k), count)
    ensures Distinct(ids)
    ensures forall id :: id in table <==> id in ids
    ensures forall i :: 0 <= i < count ==> table[ids[i]] == rolls[i]
    ensures |table| == count
    ensures WellShapedTable(table, k) && ValuesInRange(table)
  {
    ids := NumberedSeq(IdPrefix(k), count);
    NumberedSeqSpec(IdPrefix(k), count);
    table := InsertRows(ids, rolls);
  }

  /** The indices `random.choice` picks from the three id lists for one ship. */
  datatype ShipPick = ShipPick(weapon: nat, hull: nat, engine: nat)

  /** An id list that is present and non-empty (Python truthiness). */
  predicate Provided(ids: Option<seq<Id>>)
  {
    ids.Some? && |ids.value| > 0
  }

  predicate ValidPicks(count: nat, weaponIds: seq<Id>, hullIds: seq<Id>, engineIds: seq<Id>, picks: seq<ShipPick>)
  {
    && |picks| == count
    && forall i :: 0 <= i < count ==>
      picks[i].weapon < |weaponIds| && picks[i].hull < |hullIds| && picks[i].engine < |engineIds|
  }

  /** The ship row a pick selects. */
  function Picked(weaponIds: seq<Id>, hullIds: seq<Id>, engineIds: seq<Id>, p: ShipPick): Ship
    requires p.weapon < |weaponIds| && p.hull < |hullIds| && p.engine < |engineIds|
  {
    Ship(weaponIds[p.weapon], hullIds[p.hull], engineIds[p.engine])
  }

  /** `populate_ships`: nothing when an id list is missing or empty; otherwise
      `count` ships `Ship-1` .. `Ship-count`, each referencing one listed id of every kind. */
  method PopulateShips(count: nat, weaponIds: Option<seq<Id>>, hullIds: Option<seq<Id>>, engineIds: Option<seq<Id>>,
                       picks: seq<ShipPick>) returns (ships: Option<map<Id, Ship>>)
    requires Provided(weaponIds) && Provided(hullIds) && Provided(engineIds) ==>
      ValidPicks(count, weaponIds.value, hullIds.value, engineIds.value, picks)
    ensures ships.None? <==> !(Provided(weaponIds) && Provided(hullIds) && Provided(engineIds))
    ensures ships.Some? ==> |ships.value| == count
    ensures ships.Some? ==> forall s :: s in ships.value <==> s in NumberedSeq(ShipPrefix, count)
    ensures ships.Some? ==> forall i :: 0 <= i < count ==>
      ships.value[NumberedSeq(ShipPrefix, count)[i]] == Picked(weaponIds.value, hullIds.value, engineIds.value, picks[i])
    ensures ships.Some? ==> forall s :: s in ships.value ==>
      && ships.value[s].weapon in weaponIds.value
      && ships.value[s].hull in hullIds.value
      && ships.value[s].engine in engineIds.value
  {
    if !(Provided(weaponIds) && Provided(hullIds) && Provided(engineIds)) {
      return None;
    }
    var w, h, e := weaponIds.value, hullIds.value, engineIds.value;
    var ids := NumberedSeq(ShipPrefix, count);
    NumberedSeqSpec(ShipPrefix, count);
    var rows := seq(count, i requires 0 <= i < count => Picked(w, h, e, picks[i]));
    var table := InsertRows(ids, rows);
    ships := Some(table);
  }

  /** The generation run: the three component tables, then the ships over
      their id lists. The result is well-shaped and every reference resolves. */
  method Generate(weaponRolls: seq<Row>, hullRolls: seq<Row>, engineRolls: seq<Row>, shipCount: nat, picks: seq<ShipPick>)
    returns (db: Db)
    requires ValidRolls(Weapon, weaponRolls) && ValidRolls(Hull, hullRolls) && ValidRolls(Engine, engineRolls)
    requires |weaponRolls| > 0 && |hullRolls| > 0 && |engineRolls| > 0 ==>
      && |picks| == shipCount
      && forall i :: 0 <= i < shipCount ==>
        picks[i].weapon < |weaponRolls| && picks[i].hull < |hullRolls| && picks[i].engine < |engineRolls|
    ensures db.WellShaped() && db.Consistent()
    ensures ValuesInRange(db.weapons) && ValuesInRange(db.hulls) && ValuesInRange(db.engines)
    ensures |db.weapons| == |weaponRolls| && |db.hulls| == |hullRolls| && |db.engines| == |engineRolls|
    ensures |weaponRolls| > 0 && |hullRolls| > 0 && |engineRolls| > 0 ==> |db.ships| == shipCount
    ensures |weaponRolls| == 0 || |hullRolls| == 0 || |engineRolls| == 0 ==> db.ships == map[]
  {
    var weapons, weaponIds := PopulateComponents(Weapon, |weaponRolls|, weaponRolls);
    var hulls, hullIds := PopulateComponents(Hull, |hullRolls|, hullRolls);
    var engines, engineIds := PopulateComponents(Engine, |engineRolls|, engineRolls);
    var ships := PopulateShips(shipCount, Some(weaponIds), Some(hullIds), Some(engineIds), picks);
    var shipTable := if ships.Some? then ships.value else map[];
    db := Db(shipTable, weapons, hulls, engines);
    ListedRefsResolve(shipTable, weapons, hulls, engines, weaponIds, hullIds, engineIds);
  }

  /** Ships whose references are taken from the id lists of the component
      tables refer only to existing components. */
  lemma ListedRefsResolve(ships: map<Id, Ship>, weapons: map<Id, Row>, hulls: map<Id, Row>, engines: map<Id, Row>,
                          weaponIds: seq<Id>, hullIds: seq<Id>, engineIds: seq<Id>)
    requires forall id :: id in weapons <==> id in weaponIds
    requires forall id :: id in hulls <==> id in hullIds
    requires forall id :: id in engines <==> id in engineIds
    requires forall s :: s in ships ==>
      ships[s].weapon in weaponIds && ships[s].hull in hullIds && ships[s].engine in engineIds
    ensures Db(ships, weapons, hulls, engines).Consistent()
  {
  }
}

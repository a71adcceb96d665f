/** The database as a value: four tables keyed by their text primary keys. */
module Dataset {
  import opened Basics
  import opened Schema

  /** Primary keys are text (`Weapon-3`, `Ship-17`, ...). */
  type Id = string

  /** A component row: its attribute values, positionally aligned with `Params(kind)`. */
  type Row = seq<int>

  /** A row of the ships table: one reference per component kind. */
  datatype Ship = Ship(weapon: Id, hull: Id, engine: Id)
  {
    /** The reference column for kind `k`. */
    function Ref(k: Kind): Id
    {
      match k
      case Weapon => weapon
      case Hull => hull
      case Engine => engine
    }

    /** This ship with its `k` reference set to `id`. */
    function WithRef(k: Kind, id: Id): (s: Ship)
      ensures s.Ref(k) == id
      ensures forall k' :: k' != k ==> s.Ref(k') == Ref(k')
    {
      match k
      case Weapon => this.(weapon := id)
      case Hull => this.(hull := id)
      case Engine => this.(engine := id)
    }
  }

  /** Every row of `t` has one value per column of kind `k`. */
  predicate WellShapedTable(t: map<Id, Row>, k: Kind)
  {
    forall id :: id in t ==> |t[id]| == |Params(k)|
  }

  /** Every attribute value in `t` lies in the generator's range. */
  predicate ValuesInRange(t: map<Id, Row>)
  {
    forall id, j :: id in t && 0 <= j < |t[id]| ==> InRange(t[id][j])
  }

  datatype Db = Db(ships: map<Id, Ship>, weapons: map<Id, Row>, hulls: map<Id, Row>, engines: map<Id, Row>)
  {
    /** The component table of kind `k`. */
    function Table(k: Kind): map<Id, Row>
    {
      match k
      case Weapon => weapons
      case Hull => hulls
      case Engine => engines
    }

    /** This database with the table of kind `k` replaced by `t`. */
    function WithTable(k: Kind, t: map<Id, Row>): (d: Db)
      ensures d.Table(k) == t
      ensures forall k' :: k' != k ==> d.Table(k') == Table(k')
      ensures d.ships == ships
    {
      match k
      case Weapon => this.(weapons := t)
      case Hull => this.(hulls := t)
      case Engine => this.(engines := t)
    }

    /** The column layout the table definitions fix. */
    predicate WellShaped()
    {
      && WellShapedTable(weapons, Weapon)
      && WellShapedTable(hulls, Hull)
      && WellShapedTable(engines, Engine)
    }

    /** Every ship reference resolves to a component of the matching kind. */
    predicate Consistent()
    {
      forall s :: s in ships ==> ships[s].weapon in weapons && ships[s].hull in hulls && ships[s].engine in engines
    }
  }

  /** `order` lists every ship exactly once, as `SELECT ship FROM ships` does. */
  predicate ListsShips(db: Db, order: seq<Id>)
  {
    && Distinct(order)
    && (forall i :: 0 <= i < |order| ==> order[i] in db.ships)
    && (forall s :: s in db.ships ==> s in order)
  }

  /** A listing of the ships is as long as the ships table. */
  lemma ListingLength(db: Db, order: seq<Id>)
    requires ListsShips(db, order)
    ensures |order| == |db.ships|
  {
    DistinctCard(order, db.ships.Keys);
  }
}

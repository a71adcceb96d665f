/** The fixed shape of the ship database: the three component kinds, their
    columns in declaration order, and the constants the randomizer uses. */
module Schema {
  import opened Basics

  /** The three component kinds; also the three reference columns of a ship. */
  datatype Kind = Weapon | Hull | Engine

  /** The attribute columns of the component tables. The `type` column of
      hulls and of engines carries the same name, so it is one parameter. */
  datatype Param =
    | ReloadSpeed | RotationalSpeed | Diameter | PowerVolley | Count
    | Armor | Type | Capacity
    | Power

  /** All kinds, in the order the test cases visit them. */
  const Kinds: seq<Kind> := [Weapon, Hull, Engine]

  /** Smallest and largest attribute value the generator and the randomizer draw. */
  const MinValue: int := 1
  const MaxValue: int := 20

  predicate InRange(v: int)
  {
    MinValue <= v <= MaxValue
  }

  /** The attribute columns of a kind, in table order; the comparator visits
      them in this order. */
  function Params(k: Kind): (ps: seq<Param>)
    ensures 0 < |ps|
    ensures k == Weapon ==> |ps| == 5
    ensures k == Hull ==> |ps| == 3
    ensures k == Engine ==> |ps| == 2
  {
    match k
    case Weapon => [ReloadSpeed, RotationalSpeed, Diameter, PowerVolley, Count]
    case Hull => [Armor, Type, Capacity]
    case Engine => [Power, Type]
  }

  /** No column name repeats within a kind. */
  lemma ParamsDistinct(k: Kind)
    ensures Distinct(Params(k))
  {
  }

  /** The most components of a kind one parameter-change pass may touch,
      before it is capped by the table's population. */
  function ChangeBound(k: Kind): nat
  {
    match k
    case Weapon => 3
    case Hull => 2
    case Engine => 2
  }

  /** The column position of parameter `p` in a row of kind `k`. */
  function Column(k: Kind, p: Param): (i: nat)
    requires p in Params(k)
    ensures i < |Params(k)| && Params(k)[i] == p
  {
    IndexOf(Params(k), p)
  }

  function IndexOf<T(==)>(s: seq<T>, x: T): (i: nat)
    requires x in s
    ensures i < |s| && s[i] == x
    ensures forall j :: 0 <= j < i ==> s[j] != x
  {
    if s[0] == x then 0 else 1 + IndexOf(s[1..], x)
  }
}

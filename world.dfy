/**
 * The host world as the simulation sees it: factions, settlements, the
 * settlement registry (the world-object list) and the tile graph with
 * its two distance metrics.
 */
module World {
  import opened Wrappers
  import opened Settlements

  /** A faction as referenced by the simulation: its load id and the two flags the simulation reads. */
  datatype Faction = Faction(id: int, hidden: bool, isPlayer: bool)

  /** A settlement: world-object id, home tile, class, owner (null when absent) and name. */
  datatype Site = Site(id: nat, tile: int, kind: Kind, faction: Option<Faction>, name: string)

  /**
   * The tile graph, read only: neighbour lists, ApproxDistanceInTiles,
   * TraversalDistanceBetween, the tile count, and the three tile tests
   * used when placing villages (water, TileFinder validity, ice biome).
   */
  datatype Graph = Graph(
    neighbours: int -> seq<int>,
    approx: (int, int) -> real,
    traversal: (int, int) -> real,
    tilesCount: nat,
    waterCovered: int -> bool,
    validForSettlement: int -> bool,
    iceBiome: int -> bool)

  predicate IsCapital(s: Site) {
    s.kind == Tiered(CapitalSettlement)
  }

  predicate Owned(s: Site) {
    s.faction.Some?
  }

  ghost predicate DistinctIds(sites: seq<Site>) {
    forall i, j :: 0 <= i < j < |sites| ==> sites[i].id != sites[j].id
  }

  /** The position of the settlement with world-object id `id`, if it is in the world. */
  function IndexOfId(sites: seq<Site>, id: nat): (r: Option<nat>)
    ensures r.Some? ==> r.value < |sites| && sites[r.value].id == id
    ensures r.None? ==> forall j :: 0 <= j < |sites| ==> sites[j].id != id
    decreases |sites|
  {
    if |sites| == 0 then None
    else if sites[|sites| - 1].id == id then Some(|sites| - 1)
    else IndexOfId(sites[..|sites| - 1], id)
  }

  /** `sites` with the entry at `i` taken out. */
  function RemovedAt(sites: seq<Site>, i: nat): seq<Site>
    requires i < |sites|
  {
    sites[..i] + sites[i + 1..]
  }

  /**
   * The settlement list of the world (Find.WorldObjects.Settlements), in
   * list order, with the counter that hands out world-object ids.
   */
  class Registry {
    var sites: seq<Site>
    var nextId: nat

    ghost predicate Valid()
      reads this
    {
      DistinctIds(sites) && forall i :: 0 <= i < |sites| ==> sites[i].id < nextId
    }

    constructor ()
      ensures Valid() && sites == [] && nextId == 0
    {
      sites := [];
      nextId := 0;
    }

    /** WorldObjectMaker.MakeWorldObject followed by WorldObjects.Add: a fresh id, appended at the end. */
    method Add(tile: int, kind: Kind, faction: Option<Faction>, name: string) returns (id: nat)
      requires Valid()
      modifies this
      ensures Valid()
      ensures id == old(nextId) && nextId == id + 1
      ensures sites == old(sites) + [Site(id, tile, kind, faction, name)]
    {
      id := nextId;
      sites := sites + [Site(id, tile, kind, faction, name)];
      nextId := nextId + 1;
    }

    /** WorldObjects.Remove. */
    method RemoveAt(i: nat)
      requires Valid() && i < |sites|
      modifies this
      ensures Valid() && nextId == old(nextId)
      ensures sites == RemovedAt(old(sites), i)
    {
      sites := sites[..i] + sites[i + 1..];
    }

    /** Settlement.SetFaction. */
    method SetFaction(i: nat, f: Option<Faction>)
      requires Valid() && i < |sites|
      modifies this
      ensures Valid() && nextId == old(nextId)
      ensures sites == old(sites)[i := old(sites)[i].(faction := f)]
    {
      sites := sites[i := sites[i].(faction := f)];
    }

    /** SetFaction followed by a new name from the name generator. */
    method SetFactionAndName(i: nat, f: Option<Faction>, name: string)
      requires Valid() && i < |sites|
      modifies this
      ensures Valid() && nextId == old(nextId)
      ensures sites == old(sites)[i := old(sites)[i].(faction := f, name := name)]
    {
      sites := sites[i := sites[i].(faction := f, name := name)];
    }
  }

  /**
   * Index `k` is where a running-minimum loop over 0..n stops: admitted,
   * no admitted index is closer, and every admitted index before it is
   * strictly farther (the loop replaces its best only on a strict `<`).
   */
  ghost predicate IsNearest(n: nat, dist: nat -> real, admit: nat -> bool, k: nat) {
    && k < n && admit(k)
    && (forall j :: 0 <= j < n && admit(j) ==> dist(k) <= dist(j))
    && (forall j :: 0 <= j < k && admit(j) ==> dist(k) < dist(j))
  }

  /**
   * What a running-minimum loop over 0..n computes: the latest admitted
   * index strictly closer than every admitted index before it.
   */
  function ArgMin(n: nat, dist: nat -> real, admit: nat -> bool): Option<nat> {
    if n == 0 then None
    else
      var r := ArgMin(n - 1, dist, admit);
      if admit(n - 1) && (r.None? || dist(n - 1) < dist(r.value)) then Some(n - 1) else r
  }

  /** The loop finds nothing exactly when nothing is admitted, and otherwise the first of the nearest. */
  lemma {:induction false} ArgMinIsNearest(n: nat, dist: nat -> real, admit: nat -> bool)
    ensures ArgMin(n, dist, admit).None? <==> forall j :: 0 <= j < n ==> !admit(j)
    ensures ArgMin(n, dist, admit).Some? ==> IsNearest(n, dist, admit, ArgMin(n, dist, admit).value)
  {
    if n > 0 {
      ArgMinIsNearest(n - 1, dist, admit);
    }
  }

  /**
   * The running-minimum loop of the source (`bestDist`, `nearest`,
   * `if (dist < bestDist)`), over the indices 0..n that `admit` lets
   * through; the float.MaxValue start is "no best yet".
   */
  method Nearest(n: nat, dist: nat -> real, admit: nat -> bool) returns (r: Option<nat>)
    ensures r == ArgMin(n, dist, admit)
  {
    r := None;
    var bestDist := 0.0;
    var i := 0;
    while i < n
      invariant i <= n
      invariant r == ArgMin(i, dist, admit)
      invariant r.Some? ==> bestDist == dist(r.value)
    {
      if admit(i) {
        var d := dist(i);
        if r.None? || d < bestDist {
          bestDist := d;
          r := Some(i);
        }
      }
      i := i + 1;
    }
  }
}

/**
 * The world-generation driver that replaces the host's faction placement:
 * place `targetCount` ownerless settlements, give each a faction (or
 * remove it), let local majorities take over settlements, then scatter
 * villages.
 */
module Generation {
  import opened Wrappers
  import opened Settlements
  import opened World
  import opened Territory
  import opened Dominance
  import opened Villages

  /**
   * The draws of one generation run, indexed by the iteration of the loop
   * that makes them: TileFinder's tile for settlement i, the capital
   * radius and RandomElement picks of its ResolveSettlementFaction, the
   * name generator's output at each renaming, and the village loop's
   * tiles and names.
   */
  datatype Draws = Draws(
    tiles: nat -> int,
    radii: nat -> int,
    tiePicks: nat -> nat,
    anchorPick: nat -> nat,
    ownerNames: nat -> string,
    dominanceNames: nat -> string,
    villageTiles: nat -> int,
    villageNames: nat -> string)

  /** The settlement the placement loop adds: plain, ownerless and unnamed, with world-object id `id`. */
  function Fresh(id: nat, tile: int): Site {
    Site(id, tile, Vanilla, None, "")
  }

  /**
   * The list after one placement: the new settlement stays at the end with
   * the faction the resolve gave it and the owner's name, or it is gone.
   */
  function AfterPlacement(before: seq<Site>, id: nat, tile: int, outcome: Outcome, name: string): seq<Site> {
    if outcome.Removed? then before else before + [Site(id, tile, Vanilla, outcome.faction, name)]
  }

  /**
   * The turns of the placement loop from the list `start`, the ids handed
   * out from `id0` on: `placements[i]` is the list before turn i (the last
   * entry the list after the loop) and `outcomes[i]` what the resolve
   * decided for the settlement added in turn i. Turn n follows the trace
   * of the turns before it.
   */
  ghost predicate PlacementTrace(g: Graph, start: seq<Site>, id0: nat, d: Draws,
                                 placements: seq<seq<Site>>, outcomes: seq<Outcome>)
    decreases |outcomes|
  {
    && |placements| == |outcomes| + 1
    && if |outcomes| == 0 then placements[0] == start
       else
         var n := |outcomes| - 1;
         && PlacementTrace(g, start, id0, d, placements[..n + 1], outcomes[..n])
         && Turn(g, id0, d, n, placements[n], outcomes[n], placements[n + 1])
  }

  /**
   * Turn n of the placement loop: the settlement added to `before` is
   * resolved as Claimed says (kept with a claimant's faction, or removed
   * by the removal rules), and `after` is the list that leaves.
   */
  ghost predicate Turn(g: Graph, id0: nat, d: Draws, n: nat, before: seq<Site>, outcome: Outcome, after: seq<Site>) {
    && Claimed(g, before + [Fresh(id0 + n, d.tiles(n))], |before|, d.radii(n) as real, outcome)
    && after == AfterPlacement(before, id0 + n, d.tiles(n), outcome, d.ownerNames(n))
  }

  /** A trace extended by one more turn. */
  lemma TraceStep(g: Graph, start: seq<Site>, id0: nat, d: Draws,
                  placements: seq<seq<Site>>, outcomes: seq<Outcome>,
                  n: nat, before: seq<Site>, outcome: Outcome, after: seq<Site>)
    requires PlacementTrace(g, start, id0, d, placements, outcomes)
    requires n == |outcomes| && placements[n] == before
    requires Turn(g, id0, d, n, before, outcome, after)
    ensures PlacementTrace(g, start, id0, d, placements + [after], outcomes + [outcome])
  {
    assert (placements + [after])[..n + 1] == placements;
    assert (outcomes + [outcome])[..n] == outcomes;
    assert (placements + [after])[n] == before && (placements + [after])[n + 1] == after;
    assert (outcomes + [outcome])[n] == outcome;
  }

  /**
   * One turn of the placement loop: a new ownerless settlement on `tile`
   * goes in at the end of the list and is resolved; the outcome is the
   * resolve's decision for it, and the settlement either stays with that
   * faction and `name` or is removed again. `id` is the id the registry
   * hands out next.
   */
  method PlaceOne(g: Graph, reg: Registry, terr: Territory, tile: int, radiusDraw: int, tiePick: nat,
                  anchorPick: nat -> nat, name: string, ghost id: nat)
    returns (outcome: Outcome)
    requires reg.Valid() && 20 <= radiusDraw <= 40 && reg.nextId == id
    modifies reg, terr
    ensures reg.Valid() && reg.nextId == id + 1
    ensures Extends(old(terr.anchors), terr.anchors)
    ensures Resolution(g, old(reg.sites) + [Fresh(id, tile)], |old(reg.sites)|, radiusDraw as real,
                       outcome, terr.anchors)
    ensures reg.sites == AfterPlacement(old(reg.sites), id, tile, outcome, name)
  {
    ghost var before := reg.sites;
    var _ := reg.Add(tile, Vanilla, None, "");
    assert reg.sites == before + [Fresh(id, tile)];
    outcome := terr.ResolveSettlementFaction(g, reg, |reg.sites| - 1, radiusDraw, tiePick, anchorPick, name);
    if outcome.Removed? {
      assert reg.sites == before;
    }
  }

  /** Turn i of the placement loop, as the trace records it: PlaceOne, then what Claimed keeps of its resolve. */
  method PlaceTurn(g: Graph, reg: Registry, terr: Territory, d: Draws, i: nat, ghost id0: nat)
    returns (outcome: Outcome)
    requires reg.Valid() && 20 <= d.radii(i) <= 40 && reg.nextId == id0 + i
    modifies reg, terr
    ensures reg.Valid() && reg.nextId == old(reg.nextId) + 1
    ensures Extends(old(terr.anchors), terr.anchors)
    ensures Turn(g, id0, d, i, old(reg.sites), outcome, reg.sites)
  {
    ghost var before := reg.sites;
    outcome := PlaceOne(g, reg, terr, d.tiles(i), d.radii(i), d.tiePicks(i), d.anchorPick, d.ownerNames(i), id0 + i);
    TurnFromResolution(g, id0, d, i, before, outcome, reg.sites, terr.anchors);
  }

  /** A turn whose resolve satisfies Resolution is a Turn of the trace. */
  lemma TurnFromResolution(g: Graph, id0: nat, d: Draws, i: nat, before: seq<Site>, outcome: Outcome,
                           after: seq<Site>, anchors: map<nat, int>)
    requires Resolution(g, before + [Fresh(id0 + i, d.tiles(i))], |before|, d.radii(i) as real, outcome, anchors)
    requires after == AfterPlacement(before, id0 + i, d.tiles(i), outcome, d.ownerNames(i))
    ensures Turn(g, id0, d, i, before, outcome, after)
  {
    AssignedFromClaimant(g, before + [Fresh(id0 + i, d.tiles(i))], |before|, d.radii(i) as real, outcome, anchors);
  }

  /**
   * The settlements behind `start` are each the one added in some turn
   * that assigned it, with that turn's id, tile, faction and name.
   */
  ghost predicate KeptFromTurns(start: seq<Site>, id0: nat, d: Draws, sites: seq<Site>, outcomes: seq<Outcome>) {
    && |start| <= |sites| && sites[..|start|] == start
    && forall j :: |start| <= j < |sites| ==>
         exists k :: 0 <= k < |outcomes| && outcomes[k].Assigned?
           && sites[j] == Site(id0 + k, d.tiles(k), Vanilla, outcomes[k].faction, d.ownerNames(k))
  }

  /** One more turn keeps KeptFromTurns. */
  lemma KeptStep(start: seq<Site>, id0: nat, d: Draws, before: seq<Site>, outcomes: seq<Outcome>, outcome: Outcome)
    requires KeptFromTurns(start, id0, d, before, outcomes)
    ensures KeptFromTurns(start, id0, d,
                          AfterPlacement(before, id0 + |outcomes|, d.tiles(|outcomes|), outcome, d.ownerNames(|outcomes|)),
                          outcomes + [outcome])
  {
    var i := |outcomes|;
    var after := AfterPlacement(before, id0 + i, d.tiles(i), outcome, d.ownerNames(i));
    var O := outcomes + [outcome];
    if outcome.Assigned? {
      assert after[..|start|] == before[..|start|];
    }
    assert |start| <= |after| && after[..|start|] == start;
    forall j | |start| <= j < |after|
      ensures exists k :: 0 <= k < |O| && O[k].Assigned?
                && after[j] == Site(id0 + k, d.tiles(k), Vanilla, O[k].faction, d.ownerNames(k))
    {
      if j < |before| {
        assert after[j] == before[j];
        var k :| 0 <= k < i && outcomes[k].Assigned?
                 && before[j] == Site(id0 + k, d.tiles(k), Vanilla, outcomes[k].faction, d.ownerNames(k));
        assert O[k] == outcomes[k];
      } else {
        assert O[i] == outcome;
      }
    }
    assert KeptFromTurns(start, id0, d, after, O);
  }

  /** Turn i of the placement loop together with what it adds to KeptFromTurns. */
  method PlaceKeptTurn(g: Graph, reg: Registry, terr: Territory, d: Draws, i: nat,
                       ghost start: seq<Site>, ghost id0: nat, ghost outcomes: seq<Outcome>)
    returns (outcome: Outcome)
    requires reg.Valid() && 20 <= d.radii(i) <= 40 && reg.nextId == id0 + i && |outcomes| == i
    requires KeptFromTurns(start, id0, d, reg.sites, outcomes)
    modifies reg, terr
    ensures reg.Valid() && reg.nextId == old(reg.nextId) + 1
    ensures Extends(old(terr.anchors), terr.anchors)
    ensures Turn(g, id0, d, i, old(reg.sites), outcome, reg.sites)
    ensures |reg.sites| <= |old(reg.sites)| + 1
    ensures KeptFromTurns(start, id0, d, reg.sites, outcomes + [outcome])
  {
    ghost var before := reg.sites;
    outcome := PlaceTurn(g, reg, terr, d, i, id0);
    KeptStep(start, id0, d, before, outcomes, outcome);
  }

  /**
   * The placement loop: settlement i goes in at the end of the list,
   * ownerless, then is resolved. The trace records every turn; each
   * settlement kept is the one added in some turn that assigned it, with
   * that turn's id, tile, faction and name.
   */
  method PlaceSettlements(g: Graph, reg: Registry, terr: Territory, targetCount: int, d: Draws)
    returns (ghost placements: seq<seq<Site>>, ghost outcomes: seq<Outcome>)
    requires reg.Valid()
    requires forall i :: 20 <= d.radii(i) <= 40
    modifies reg, terr
    ensures reg.Valid()
    ensures Extends(old(terr.anchors), terr.anchors)
    ensures PlacementTrace(g, old(reg.sites), old(reg.nextId), d, placements, outcomes)
    ensures |outcomes| == (if targetCount > 0 then targetCount else 0)
    ensures placements[|outcomes|] == reg.sites
    ensures |reg.sites| <= |old(reg.sites)| + |outcomes|
    ensures KeptFromTurns(old(reg.sites), old(reg.nextId), d, reg.sites, outcomes)
  {
    ghost var start := reg.sites;
    ghost var id0 := reg.nextId;
    placements, outcomes := [start], [];
    var i := 0;
    while i < targetCount
      invariant reg.Valid() && 0 <= i && reg.nextId == id0 + i
      invariant i <= (if targetCount > 0 then targetCount else 0)
      invariant PlacementTrace(g, start, id0, d, placements, outcomes) && |outcomes| == i
      invariant placements[i] == reg.sites
      invariant |reg.sites| <= |start| + i
      invariant KeptFromTurns(start, id0, d, reg.sites, outcomes)
      invariant Extends(old(terr.anchors), terr.anchors)
    {
      ghost var before := reg.sites;
      var outcome := PlaceKeptTurn(g, reg, terr, d, i, start, id0, outcomes);
      TraceStep(g, start, id0, d, placements, outcomes, i, before, outcome, reg.sites);
      placements, outcomes := placements + [reg.sites], outcomes + [outcome];
      i := i + 1;
    }
  }

  /**
   * The Prefix patch from the placement loop on: PlaceSettlements, the
   * dominance pass over every owned settlement, then SpawnVillages. The
   * placement turns follow the trace (each new settlement resolved to a
   * faction some claimant holds, or removed); the dominance pass turns
   * the placed list `placements[|outcomes|]` into its DominancePass; the
   * settlements already in the world keep their id, tile and class and
   * whether they are owned; behind them come the villages, at most two
   * per settlement.
   */
  method GenerateSettlements(g: Graph, reg: Registry, terr: Territory, targetCount: int, d: Draws)
    returns (ghost placements: seq<seq<Site>>, ghost outcomes: seq<Outcome>,
             ghost placed: nat)
    requires reg.Valid()
    requires forall i :: 20 <= d.radii(i) <= 40
    requires forall i :: g.tilesCount == 0 || 0 <= d.villageTiles(i) < g.tilesCount
    modifies reg, terr
    ensures reg.Valid()
    ensures Extends(old(terr.anchors), terr.anchors)
    ensures PlacementTrace(g, old(reg.sites), old(reg.nextId), d, placements, outcomes)
    ensures |outcomes| == (if targetCount > 0 then targetCount else 0)
    ensures placed == |placements[|outcomes|]| <= |reg.sites|
    ensures reg.sites[..placed] == DominancePass(g, placements[|outcomes|], d.dominanceNames, placed)
    ensures |old(reg.sites)| <= placed <= |old(reg.sites)| + |outcomes|
    ensures |reg.sites| - placed <= 2 * placed
    ensures forall k :: 0 <= k < |old(reg.sites)| ==>
              && reg.sites[k].id == old(reg.sites)[k].id && reg.sites[k].tile == old(reg.sites)[k].tile
              && reg.sites[k].kind == old(reg.sites)[k].kind
              && (Owned(reg.sites[k]) <==> Owned(old(reg.sites)[k]))
    ensures forall k :: |old(reg.sites)| <= k < placed ==> reg.sites[k].kind == Vanilla
    ensures forall k :: placed <= k < |reg.sites| ==> VillageOk(g, reg.sites, k)
  {
    ghost var start, start0Id := reg.sites, reg.nextId;
    placements, outcomes := PlaceSettlements(g, reg, terr, targetCount, d);
    ghost var afterPlace := reg.sites;
    placed := |reg.sites|;
    EnforceLocalDominance(g, reg, d.dominanceNames);
    PassKeepsShape(g, afterPlace, d.dominanceNames, |afterPlace|);
    ghost var afterPass := reg.sites;
    SpawnVillages(g, reg, d.villageTiles, d.villageNames);
    assert reg.sites[..placed] == afterPass;
    forall k | 0 <= k < |start|
      ensures reg.sites[k] == afterPass[k] && afterPlace[k] == start[k]
    {
      assert reg.sites[..placed][k] == afterPass[k];
      assert afterPlace[..|start|][k] == start[k];
    }
    forall k | |start| <= k < placed
      ensures reg.sites[k].kind == Vanilla
    {
      assert reg.sites[..placed][k] == afterPass[k];
      var m :| 0 <= m < |outcomes| && outcomes[m].Assigned?
               && afterPlace[k] == Site(start0Id + m, d.tiles(m), Vanilla, outcomes[m].faction, d.ownerNames(m));
    }
  }
}

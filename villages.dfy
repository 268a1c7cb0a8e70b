/**
 * SpawnVillages: after the settlements are placed and owned, villages
 * are scattered on free land, each joining the nearest owned settlement.
 */
module Villages {
  import opened Wrappers
  import opened Settlements
  import opened World
  import opened Text

  /**
   * The name clean-up of a new village: the generated name gets a
   * " village" suffix, then the three Contains/Replace/Trim steps run in
   * order.
   */
  function VillageName(generated: string): (r: string)
    ensures !Contains(r, "village")
  {
    var n0 := generated + " village";
    var n1 := if Contains(n0, "Village village") then Trim(Replace(n0, "Village village", "Village")) else n0;
    var n2 := if Contains(n1, "City village") then Trim(Replace(n1, "City village", "Village")) else n1;
    if Contains(n2, "village") then
      ReplaceVillageRemovesAll(n2);
      TrimKeepsAbsence(Replace(n2, "village", "Village"), "village");
      Trim(Replace(n2, "village", "Village"))
    else n2
  }

  /**
   * `k` is the settlement the nearest-settlement loop of SpawnVillages
   * stops at, among the first `n`: owned, no owned settlement nearer to
   * `tile`, every owned one before it strictly farther.
   */
  ghost predicate NearestOwned(g: Graph, sites: seq<Site>, n: nat, tile: int, k: nat) {
    && n <= |sites| && k < n && Owned(sites[k])
    && (forall m :: 0 <= m < n && Owned(sites[m]) ==> g.approx(tile, sites[k].tile) <= g.approx(tile, sites[m].tile))
    && (forall m :: 0 <= m < k && Owned(sites[m]) ==> g.approx(tile, sites[k].tile) < g.approx(tile, sites[m].tile))
  }

  /** The loop `foreach (var s in settlements)` that finds the owned settlement nearest to `tile`. */
  method NearestOwnedSettlement(g: Graph, sites: seq<Site>, tile: int) returns (r: Option<nat>)
    ensures r.None? <==> forall m :: 0 <= m < |sites| ==> !Owned(sites[m])
    ensures r.Some? ==> NearestOwned(g, sites, |sites|, tile, r.value)
  {
    r := None;
    var bestDist := 0.0;
    var i := 0;
    while i < |sites|
      invariant 0 <= i <= |sites|
      invariant r.None? <==> forall m :: 0 <= m < i ==> !Owned(sites[m])
      invariant r.Some? ==> NearestOwned(g, sites, i, tile, r.value) && bestDist == g.approx(tile, sites[r.value].tile)
    {
      if sites[i].faction.Some? {
        var dist := g.approx(tile, sites[i].tile);
        if r.None? || dist < bestDist {
          bestDist := dist;
          r := Some(i);
        }
      }
      i := i + 1;
    }
  }

  /** The tile tests a village must pass: land, valid for a settlement, neither ice sheet nor sea ice. */
  predicate Placeable(g: Graph, tile: int) {
    !g.waterCovered(tile) && g.validForSettlement(tile) && !g.iceBiome(tile)
  }

  /**
   * What holds of the village at position `j`: a Village on a placeable
   * tile of the grid, named without a lower-case "village", owned by the
   * faction of the nearest owned settlement that was in the world when it
   * was placed (the ones before it).
   */
  ghost predicate VillageOk(g: Graph, sites: seq<Site>, j: nat) {
    && j < |sites|
    && sites[j].kind == Tiered(Village)
    && 0 <= sites[j].tile < g.tilesCount && Placeable(g, sites[j].tile)
    && !Contains(sites[j].name, "village")
    && exists k: nat :: NearestOwned(g, sites, j, sites[j].tile, k) && sites[j].faction == sites[k].faction
  }

  lemma VillagesKept(g: Graph, sites: seq<Site>, x: Site, from: nat)
    requires forall j :: from <= j < |sites| ==> VillageOk(g, sites, j)
    ensures forall j :: from <= j < |sites| ==> VillageOk(g, sites + [x], j)
  {
    forall j | from <= j < |sites|
      ensures VillageOk(g, sites + [x], j)
    {
      assert VillageOk(g, sites, j);
      var k: nat :| NearestOwned(g, sites, j, sites[j].tile, k) && sites[j].faction == sites[k].faction;
      assert NearestOwned(g, sites + [x], j, sites[j].tile, k);
    }
  }

  /**
   * One pass of the village loop on the drawn `tile`: a tile that fails a
   * test, or finds no owned settlement, places nothing; otherwise a
   * village joins the nearest owned settlement's faction.
   */
  method TrySpawnVillage(g: Graph, reg: Registry, tile: int, name: string) returns (placed: bool)
    requires reg.Valid()
    modifies reg
    ensures reg.Valid()
    ensures placed <==> Placeable(g, tile) && exists m :: 0 <= m < |old(reg.sites)| && Owned(old(reg.sites)[m])
    ensures !placed ==> reg.sites == old(reg.sites) && reg.nextId == old(reg.nextId)
    ensures placed ==> && |reg.sites| == |old(reg.sites)| + 1 && reg.sites[..|old(reg.sites)|] == old(reg.sites)
                       && reg.sites[|old(reg.sites)|].id == old(reg.nextId) && reg.nextId == old(reg.nextId) + 1
                       && reg.sites[|old(reg.sites)|].name == VillageName(name)
                       && reg.sites[|old(reg.sites)|].kind == Tiered(Village)
                       && reg.sites[|old(reg.sites)|].tile == tile && Placeable(g, tile)
                       && !Contains(reg.sites[|old(reg.sites)|].name, "village")
                       && exists k: nat :: NearestOwned(g, reg.sites, |old(reg.sites)|, tile, k)
                                            && reg.sites[|old(reg.sites)|].faction == reg.sites[k].faction
  {
    placed := false;
    if g.waterCovered(tile) {
      return;
    }
    if !g.validForSettlement(tile) {
      return;
    }
    if g.iceBiome(tile) {
      return;
    }
    var nearest := NearestOwnedSettlement(g, reg.sites, tile);
    if nearest.None? {
      return;
    }
    ghost var before := reg.sites;
    var faction := reg.sites[nearest.value].faction;
    var v := Site(reg.nextId, tile, Tiered(Village), faction, VillageName(name));
    var _ := reg.Add(tile, Tiered(Village), faction, VillageName(name));
    assert reg.sites == before + [v];
    assert NearestOwned(g, reg.sites, |before|, tile, nearest.value);
    assert reg.sites[..|before|] == before;
    placed := true;
  }

  /**
   * SpawnVillages. `draws(i)` is the tile drawn on the i-th pass
   * (Rand.Range(0, TilesCount)) and `names(i)` the name generated then.
   * The target is twice the settlement count at the start and the loop
   * makes at most 2 * TilesCount passes; a pass that draws an unusable
   * tile, or finds no owned settlement, places nothing.
   */
  method SpawnVillages(g: Graph, reg: Registry, draws: nat -> int, names: nat -> string)
    requires reg.Valid()
    requires forall i :: g.tilesCount == 0 || 0 <= draws(i) < g.tilesCount
    modifies reg
    ensures reg.Valid()
    ensures |old(reg.sites)| == 0 ==> reg.sites == old(reg.sites) && reg.nextId == old(reg.nextId)
    ensures |reg.sites| >= |old(reg.sites)| && reg.sites[..|old(reg.sites)|] == old(reg.sites)
    ensures |reg.sites| - |old(reg.sites)| <= 2 * |old(reg.sites)|
    ensures |reg.sites| - |old(reg.sites)| <= 2 * g.tilesCount
    ensures forall j :: |old(reg.sites)| <= j < |reg.sites| ==> VillageOk(g, reg.sites, j)
  {
    var count := |reg.sites|;
    if count == 0 {
      return;
    }
    ghost var start := reg.sites;
    var targetVillages := count * 2;
    var spawned := 0;
    var safety := g.tilesCount * 2;
    var pass := 0;
    while spawned < targetVillages && safety > 0
      invariant reg.Valid()
      invariant |reg.sites| == count + spawned && reg.sites[..count] == start
      invariant 0 <= spawned <= targetVillages
      invariant 0 <= safety && pass + safety == 2 * g.tilesCount && spawned <= pass
      invariant forall j :: count <= j < |reg.sites| ==> VillageOk(g, reg.sites, j)
      decreases safety
    {
      safety := safety - 1;
      var tile := draws(pass);
      var name := names(pass);
      pass := pass + 1;
      var placed := SpawnKept(g, reg, tile, name, count, start);
      if placed {
        spawned := spawned + 1;
      }
    }
  }

  /** One pass of SpawnVillages: TrySpawnVillage, keeping the villages placed so far as VillageOk says. */
  method SpawnKept(g: Graph, reg: Registry, tile: int, name: string, ghost count: nat, ghost start: seq<Site>)
    returns (placed: bool)
    requires reg.Valid() && count <= |reg.sites| && reg.sites[..count] == start && 0 <= tile < g.tilesCount
    requires forall j :: count <= j < |reg.sites| ==> VillageOk(g, reg.sites, j)
    modifies reg
    ensures reg.Valid()
    ensures |reg.sites| == |old(reg.sites)| + (if placed then 1 else 0) && reg.sites[..count] == start
    ensures forall j :: count <= j < |reg.sites| ==> VillageOk(g, reg.sites, j)
  {
    ghost var before := reg.sites;
    placed := TrySpawnVillage(g, reg, tile, name);
    if placed {
      SpawnedOk(g, before, reg.sites, tile, count);
    }
  }

  /** A village appended by TrySpawnVillage joins the VillageOk villages behind the first `count` settlements. */
  lemma SpawnedOk(g: Graph, before: seq<Site>, after: seq<Site>, tile: int, count: nat)
    requires count <= |before| && 0 <= tile < g.tilesCount
    requires forall j :: count <= j < |before| ==> VillageOk(g, before, j)
    requires |after| == |before| + 1 && after[..|before|] == before
    requires after[|before|].kind == Tiered(Village) && after[|before|].tile == tile && Placeable(g, tile)
    requires !Contains(after[|before|].name, "village")
    requires exists k: nat :: NearestOwned(g, after, |before|, tile, k) && after[|before|].faction == after[k].faction
    ensures after[..count] == before[..count]
    ensures forall j :: count <= j < |after| ==> VillageOk(g, after, j)
  {
    VillagesKept(g, before, after[|before|], count);
    assert after == before + [after[|before|]];
    assert VillageOk(g, after, |before|);
  }
}

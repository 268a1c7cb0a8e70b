/**
 * Territory assignment at world generation: which faction a new
 * settlement joins, local dominance, and the village pass.
 */
module Territory {
  import opened Wrappers
  import opened Settlements
  import opened World
  import opened Text
  import opened Anchors

  /** The first capital in list order owned by `f` (null matches an ownerless capital). */
  function CapitalOf(sites: seq<Site>, f: Option<Faction>): (r: Option<nat>)
    ensures r.Some? ==> r.value < |sites| && IsCapital(sites[r.value]) && sites[r.value].faction == f
    ensures r.Some? ==> forall j :: 0 <= j < r.value ==> !(IsCapital(sites[j]) && sites[j].faction == f)
    ensures r.None? ==> forall j :: 0 <= j < |sites| ==> !(IsCapital(sites[j]) && sites[j].faction == f)
    decreases |sites|
  {
    if |sites| == 0 then None
    else if IsCapital(sites[0]) && sites[0].faction == f then Some(0)
    else
      match CapitalOf(sites[1..], f)
      case None => None
      case Some(k) => Some(k + 1)
  }

  /** FindFactionCapital: the scan of the world-object list for the faction's capital. */
  method FindFactionCapital(sites: seq<Site>, f: Option<Faction>) returns (r: Option<nat>)
    ensures r == CapitalOf(sites, f)
  {
    var i := 0;
    while i < |sites|
      invariant 0 <= i <= |sites|
      invariant forall j :: 0 <= j < i ==> !(IsCapital(sites[j]) && sites[j].faction == f)
    {
      if IsCapital(sites[i]) && sites[i].faction == f {
        CapitalOfFirst(sites, f, i);
        return Some(i);
      }
      i := i + 1;
    }
    CapitalOfNone(sites, f);
    return None;
  }

  lemma {:induction false} CapitalOfFirst(sites: seq<Site>, f: Option<Faction>, i: nat)
    requires i < |sites| && IsCapital(sites[i]) && sites[i].faction == f
    requires forall j :: 0 <= j < i ==> !(IsCapital(sites[j]) && sites[j].faction == f)
    ensures CapitalOf(sites, f) == Some(i)
    decreases i
  {
    if i > 0 {
      CapitalOfFirst(sites[1..], f, i - 1);
    }
  }

  lemma {:induction false} CapitalOfNone(sites: seq<Site>, f: Option<Faction>)
    requires forall j :: 0 <= j < |sites| ==> !(IsCapital(sites[j]) && sites[j].faction == f)
    ensures CapitalOf(sites, f).None?
    decreases |sites|
  {
    if |sites| > 0 {
      CapitalOfNone(sites[1..], f);
    }
  }

  /** Whether candidate `s` has a capital (FindClosestCapitalFaction skips it otherwise). */
  predicate HasCapital(sites: seq<Site>, s: nat)
    requires s < |sites|
  {
    CapitalOf(sites, sites[s].faction).Some?
  }

  /** The world-object id of the capital of candidate `s`'s faction. */
  function CapitalIdOf(sites: seq<Site>, s: nat): nat
    requires s < |sites| && HasCapital(sites, s)
  {
    sites[CapitalOf(sites, sites[s].faction).value].id
  }

  /** Every entry of `m0` is still in `m1`, with the same value. */
  ghost predicate Extends(m0: map<nat, int>, m1: map<nat, int>) {
    forall id :: id in m0 ==> id in m1 && m1[id] == m0[id]
  }

  /**
   * The part of territory assignment that keeps state across calls: the
   * memo of capital anchor tiles (capitalAnchorTiles), keyed by the
   * capital's world-object id.
   */
  class Territory {
    var anchors: map<nat, int>

    constructor ()
      ensures anchors == map[]
    {
      anchors := map[];
    }

    /**
     * GetCapitalAnchorTile. A null capital gives -1. A capital already in
     * the memo gets its stored tile back and nothing changes. Otherwise
     * the candidates are searched, one of them is drawn (`pick` stands for
     * RandomElement), the capital's own tile is used when there is none,
     * and the result is stored.
     */
    method GetCapitalAnchorTile(g: Graph, capital: Option<Site>, pick: nat) returns (r: int)
      modifies this
      ensures capital.None? ==> r == -1 && anchors == old(anchors)
      ensures capital.Some? && capital.value.id in old(anchors) ==>
                r == old(anchors)[capital.value.id] && anchors == old(anchors)
      ensures capital.Some? && capital.value.id !in old(anchors) ==>
                anchors == old(anchors)[capital.value.id := r]
                && r in Ball(g, capital.value.tile, SearchDepth)
                && (g.neighbours(capital.value.tile) == [] ==> r == capital.value.tile)
      ensures capital.Some? ==> capital.value.id in anchors && anchors[capital.value.id] == r
      ensures Extends(old(anchors), anchors)
    {
      if capital.None? {
        return -1;
      }
      var id := capital.value.id;
      if id in anchors {
        return anchors[id];
      }
      var c := capital.value.tile;
      var candidates := AnchorCandidates(g, c);
      if |candidates| == 0 {
        r := c;
        assert c in Ball(g, c, 0);
        BallGrows(g, c, 0, SearchDepth);
      } else {
        r := candidates[pick % |candidates|];
      }
      anchors := anchors[id := r];
    }

    /**
     * FindClosestCapitalFaction over the capitals `candidates` (indices
     * into `sites`): each candidate whose faction has a capital is scored
     * by the traversal distance from `tile` to that capital's anchor; the
     * factions at the smallest score are collected in order and one is
     * drawn (`tiePick`). `anchorPick` gives the anchor draw of a capital,
     * by id: with the memo, each capital's anchor is drawn at most once.
     * The result is the faction of a candidate at minimal distance, and
     * null exactly when no candidate has a capital, or the drawn candidate
     * is itself ownerless.
     */
    method FindClosestCapitalFaction(g: Graph, sites: seq<Site>, tile: int, candidates: seq<nat>,
                                     tiePick: nat, anchorPick: nat -> nat)
      returns (r: Option<Faction>)
      requires forall k :: 0 <= k < |candidates| ==> candidates[k] < |sites|
      modifies this
      ensures Extends(old(anchors), anchors)
      ensures Tracked(CapitalIds(sites, candidates), anchors)
      ensures (forall k :: 0 <= k < |candidates| ==> !HasCapital(sites, candidates[k])) ==> r.None?
      ensures (exists k :: 0 <= k < |candidates| && HasCapital(sites, candidates[k])) ==>
                exists k :: 0 <= k < |candidates|
                  && ClosestCapital(g, tile, CapitalIds(sites, candidates), anchors, k)
                  && r == sites[candidates[k]].faction
    {
      ghost var caps := CapitalIds(sites, candidates);
      ghost var facs := seq(|candidates|, k requires 0 <= k < |candidates| => sites[candidates[k]].faction);
      ghost var scores: seq<real> := [];
      var bestDist := 0.0;
      var best: seq<Option<Faction>> := [];
      ghost var bestAt: seq<nat> := [];
      var i := 0;
      while i < |candidates|
        invariant 0 <= i <= |candidates| && |scores| == i
        invariant Extends(old(anchors), anchors)
        invariant Scored(g, tile, caps, anchors, scores)
        invariant BestSoFar(caps, facs, scores, bestDist, best, bestAt)
      {
        scores, bestDist, best, bestAt := ScoreCandidate(g, sites, tile, candidates, i, anchorPick, caps, facs,
                                                         scores, bestDist, best, bestAt);
        i := i + 1;
      }
      ScoredFinal(g, tile, caps, anchors, scores);
      if |best| == 0 {
        NoClosest(sites, candidates, scores, bestDist, best, bestAt);
        return None;
      }
      var m := tiePick % |best|;
      r := best[m];
      DrawnClosest(g, sites, tile, candidates, anchors, scores, bestDist, best, bestAt, m);
    }

    /**
     * One turn of FindClosestCapitalFaction's loop, for candidate `i`: a candidate whose faction has a capital is scored by its
     * anchor distance and joins, replaces or misses the best list.
     */
    method ScoreCandidate(g: Graph, sites: seq<Site>, tile: int, candidates: seq<nat>, i: nat, anchorPick: nat -> nat,
                          ghost caps: seq<Option<nat>>, ghost facs: seq<Option<Faction>>, ghost scores: seq<real>,
                          bestDist: real, best: seq<Option<Faction>>, ghost bestAt: seq<nat>)
      returns (ghost scores': seq<real>, bestDist': real, best': seq<Option<Faction>>, ghost bestAt': seq<nat>)
      requires forall k :: 0 <= k < |candidates| ==> candidates[k] < |sites|
      requires caps == CapitalIds(sites, candidates)
      requires facs == seq(|candidates|, k requires 0 <= k < |candidates| => sites[candidates[k]].faction)
      requires i == |scores| < |candidates|
      requires Scored(g, tile, caps, anchors, scores)
      requires BestSoFar(caps, facs, scores, bestDist, best, bestAt)
      modifies this
      ensures |scores'| == |scores| + 1
      ensures Extends(old(anchors), anchors)
      ensures Scored(g, tile, caps, anchors, scores')
      ensures BestSoFar(caps, facs, scores', bestDist', best', bestAt')
    {
      var s := candidates[i];
      var cap := FindFactionCapital(sites, sites[s].faction);
      if cap.Some? {
        assert caps[i] == Some(sites[cap.value].id);
        ghost var before := anchors;
        var anchor := GetCapitalAnchorTile(g, Some(sites[cap.value]), anchorPick(sites[cap.value].id));
        var dist := g.traversal(tile, anchor);
        ScoredStep(g, tile, caps, before, anchors, scores, dist);
        assert facs[i] == sites[s].faction;
        if best == [] || dist < bestDist {
          BestReplace(caps, facs, scores, bestDist, best, bestAt, dist);
          bestDist', best', bestAt' := dist, [sites[s].faction], [i];
        } else if dist == bestDist {
          BestTie(caps, facs, scores, bestDist, best, bestAt, dist);
          bestDist', best', bestAt' := bestDist, best + [sites[s].faction], bestAt + [i];
        } else {
          BestKeep(caps, facs, scores, bestDist, best, bestAt, dist);
          bestDist', best', bestAt' := bestDist, best, bestAt;
        }
        scores' := scores + [dist];
      } else {
        assert caps[i].None?;
        ScoredStep(g, tile, caps, anchors, anchors, scores, 0.0);
        BestSkip(caps, facs, scores, bestDist, best, bestAt);
        bestDist', best', bestAt' := bestDist, best, bestAt;
        scores' := scores + [0.0];
      }
    }

    /**
     * ResolveSettlementFaction for settlement `t`, just added to the world:
     * the capital radius is drawn from 20..40 (`radiusDraw`); one capital in
     * range gives its faction; several go to FindClosestCapitalFaction; none
     * falls back to the nearest lender. A settlement that gets no faction
     * is removed. `name` is the name generator's output for the new owner.
     */
    method ResolveSettlementFaction(g: Graph, reg: Registry, t: nat, radiusDraw: int, tiePick: nat,
                                    anchorPick: nat -> nat, name: string)
      returns (outcome: Outcome)
      requires reg.Valid() && t < |reg.sites| && 20 <= radiusDraw <= 40
      modifies this, reg
      ensures reg.Valid() && reg.nextId == old(reg.nextId)
      ensures Extends(old(anchors), anchors)
      ensures outcome.Removed? ==> reg.sites == RemovedAt(old(reg.sites), t)
      ensures outcome.Assigned? ==>
                reg.sites == old(reg.sites)[t := old(reg.sites)[t].(faction := outcome.faction, name := name)]
      ensures Resolution(g, old(reg.sites), t, radiusDraw as real, outcome, anchors)
    {
      var sites := reg.sites;
      var capitals := Capitals(sites);
      var radius := radiusDraw as real;
      var inRange := CapitalsInRange(g, sites, sites[t].tile, capitals, radius);
      var chosen: Option<Faction>;
      if |inRange| == 1 {
        chosen := sites[inRange[0]].faction;
        outcome := AssignFaction(reg, t, chosen, name);
      } else if |inRange| > 1 {
        chosen := FindClosestCapitalFaction(g, sites, sites[t].tile, inRange, tiePick, anchorPick);
        outcome := AssignOrRemove(reg, t, chosen, name);
        SeveralResolved(g, sites, t, radius, inRange, chosen, outcome, anchors);
      } else {
        chosen := NearestLenderFaction(g, sites, t, capitals, radius);
        outcome := AssignOrRemove(reg, t, chosen, name);
        NoneResolved(g, sites, t, radius, chosen, outcome, anchors);
      }
    }
  }

  /** The several-in-range branch of ResolveSettlementFaction meets Resolution. */
  lemma SeveralResolved(g: Graph, S: seq<Site>, t: nat, radius: real, inRange: seq<nat>,
                        chosen: Option<Faction>, outcome: Outcome, anchors: map<nat, int>)
    requires t < |S| && inRange == InRange(g, S, S[t].tile, Capitals(S), radius) && |inRange| > 1
    requires (forall k :: 0 <= k < |inRange| ==> !HasCapital(S, inRange[k])) ==> chosen.None?
    requires (exists k :: 0 <= k < |inRange| && HasCapital(S, inRange[k])) ==>
               exists k :: 0 <= k < |inRange|
                 && ClosestCapital(g, S[t].tile, CapitalIds(S, inRange), anchors, k)
                 && chosen == S[inRange[k]].faction
    requires chosen.None? ==> outcome == Removed
    requires chosen.Some? ==> outcome == Assigned(chosen)
    ensures Resolution(g, S, t, radius, outcome, anchors)
  {
  }

  /** The none-in-range branch of ResolveSettlementFaction meets Resolution. */
  lemma NoneResolved(g: Graph, S: seq<Site>, t: nat, radius: real, chosen: Option<Faction>,
                     outcome: Outcome, anchors: map<nat, int>)
    requires t < |S| && |InRange(g, S, S[t].tile, Capitals(S), radius)| == 0
    requires chosen.None? <==> forall j :: 0 <= j < |S| ==> !Lender(g, S, t, Capitals(S), radius, j)
    requires chosen.Some? ==> exists k: nat :: NearestLender(g, S, t, Capitals(S), radius, k) && S[k].faction == chosen
    requires chosen.None? ==> outcome == Removed
    requires chosen.Some? ==> outcome == Assigned(chosen)
    ensures Resolution(g, S, t, radius, outcome, anchors)
  {
  }

  /** The new settlement `t` takes faction `f` (possibly none) and the owner's generated name. */
  method AssignFaction(reg: Registry, t: nat, f: Option<Faction>, name: string) returns (outcome: Outcome)
    requires reg.Valid() && t < |reg.sites|
    modifies reg
    ensures reg.Valid() && reg.nextId == old(reg.nextId)
    ensures outcome == Assigned(f)
    ensures reg.sites == old(reg.sites)[t := old(reg.sites)[t].(faction := f, name := name)]
  {
    reg.SetFactionAndName(t, f, name);
    outcome := Assigned(f);
  }

  /** A chosen faction is assigned with the name; no faction removes settlement `t` from the world. */
  method AssignOrRemove(reg: Registry, t: nat, f: Option<Faction>, name: string) returns (outcome: Outcome)
    requires reg.Valid() && t < |reg.sites|
    modifies reg
    ensures reg.Valid() && reg.nextId == old(reg.nextId)
    ensures f.None? ==> outcome == Removed && reg.sites == RemovedAt(old(reg.sites), t)
    ensures f.Some? ==> outcome == Assigned(f)
                        && reg.sites == old(reg.sites)[t := old(reg.sites)[t].(faction := f, name := name)]
  {
    if f.Some? {
      outcome := AssignFaction(reg, t, f, name);
    } else {
      outcome := Removed;
      reg.RemoveAt(t);
    }
  }

  /** What ResolveSettlementFaction did with the new settlement. */
  datatype Outcome = Assigned(faction: Option<Faction>) | Removed

  /**
   * What ResolveSettlementFaction decides for settlement `t` of `S` under
   * the capital radius `radius`, `anchors` being the memo after the call.
   * One capital in range gives its faction, possibly none. Several go to
   * the faction of a candidate whose capital anchor is nearest; the
   * settlement is removed when that faction is none or when no candidate's
   * faction has a capital. None in range falls back to the nearest lender,
   * and the settlement is removed exactly when there is no lender.
   */
  ghost predicate Resolution(g: Graph, S: seq<Site>, t: nat, radius: real, outcome: Outcome, anchors: map<nat, int>) {
    && t < |S|
    && var inRange := InRange(g, S, S[t].tile, Capitals(S), radius);
       && (|inRange| == 1 ==> outcome == Assigned(S[inRange[0]].faction))
       && (|inRange| > 1 ==>
             && ((forall k :: 0 <= k < |inRange| ==> !HasCapital(S, inRange[k])) ==> outcome.Removed?)
             && (outcome.Assigned? ==> outcome.faction.Some?)
             && ((exists k :: 0 <= k < |inRange| && HasCapital(S, inRange[k])) ==>
                   exists k :: 0 <= k < |inRange|
                     && ClosestCapital(g, S[t].tile, CapitalIds(S, inRange), anchors, k)
                     && (if outcome.Assigned? then S[inRange[k]].faction == outcome.faction
                         else S[inRange[k]].faction.None?)))
       && (|inRange| == 0 ==>
             && (outcome.Removed? <==> forall j :: 0 <= j < |S| ==> !Lender(g, S, t, Capitals(S), radius, j))
             && (outcome.Assigned? ==>
                   exists k: nat :: NearestLender(g, S, t, Capitals(S), radius, k) && S[k].faction == outcome.faction))
  }

  /** Settlement `j` is a capital within the radius of `t`. */
  ghost predicate CapitalInReach(g: Graph, S: seq<Site>, t: nat, radius: real, j: nat)
    requires t < |S|
  {
    j < |S| && IsCapital(S[j]) && g.approx(S[t].tile, S[j].tile) <= radius
  }

  /** Settlement `j` can hand its faction to `t`: a capital within the radius of `t`, or a lender. */
  ghost predicate Claimant(g: Graph, S: seq<Site>, t: nat, radius: real, j: nat)
    requires t < |S|
  {
    && j < |S|
    && (CapitalInReach(g, S, t, radius, j) || Lender(g, S, t, Capitals(S), radius, j))
  }

  /**
   * Everything Resolution decides that does not depend on the anchor memo,
   * stated per capital rather than on the list of capitals in range.
   * A settlement that is kept takes the faction of a capital in range or
   * of a lender, never one from elsewhere; it stays ownerless only when it
   * took the faction of an ownerless capital in range. A lone capital in
   * range always gives its faction. With two or more capitals in range
   * the settlement is never kept ownerless, and it is removed only when
   * some capital in range is ownerless (the nearest one, which the memo of
   * anchors decides). With no capital in range
   * it is removed exactly when there is no lender.
   */
  ghost predicate Claimed(g: Graph, S: seq<Site>, t: nat, radius: real, outcome: Outcome)
    requires t < |S|
  {
    && (outcome.Assigned? ==> exists j: nat :: Claimant(g, S, t, radius, j) && S[j].faction == outcome.faction)
    && (outcome == Assigned(None) ==> exists j: nat :: CapitalInReach(g, S, t, radius, j) && S[j].faction.None?)
    && (forall j: nat ::
          CapitalInReach(g, S, t, radius, j) && (forall j': nat :: CapitalInReach(g, S, t, radius, j') ==> j' == j) ==>
            outcome == Assigned(S[j].faction))
    && (forall j: nat, j': nat ::
          j != j' && CapitalInReach(g, S, t, radius, j) && CapitalInReach(g, S, t, radius, j') ==>
            && (outcome.Assigned? ==> outcome.faction.Some?)
            && (outcome.Removed? ==> exists k: nat :: CapitalInReach(g, S, t, radius, k) && S[k].faction.None?))
    && ((forall j: nat :: !CapitalInReach(g, S, t, radius, j)) ==>
          (outcome.Removed? <==> forall j :: 0 <= j < |S| ==> !Lender(g, S, t, Capitals(S), radius, j)))
  }

  /** The capitals in range of `t` are exactly the capitals within its radius, each listed once. */
  lemma InRangeIsReach(g: Graph, S: seq<Site>, t: nat, radius: real)
    requires t < |S|
    ensures var inRange := InRange(g, S, S[t].tile, Capitals(S), radius);
            && (forall j: nat :: j in inRange <==> CapitalInReach(g, S, t, radius, j))
            && Increasing(inRange)
  {
    IndicesIncreasing(|S|);
    FilterIncreasingAll(Indices(|S|));
    FilterIncreasingAll(Capitals(S));
  }

  /** Every resolution hands out a claimant's faction, and keeps or removes as Claimed says. */
  lemma AssignedFromClaimant(g: Graph, S: seq<Site>, t: nat, radius: real, outcome: Outcome, anchors: map<nat, int>)
    requires Resolution(g, S, t, radius, outcome, anchors)
    ensures Claimed(g, S, t, radius, outcome)
  {
    ClaimantFaction(g, S, t, radius, outcome, anchors);
    ReachDecides(g, S, t, radius, outcome, anchors);
  }

  /** The faction a resolution assigns is a claimant's, and no faction only from a capital in range. */
  lemma ClaimantFaction(g: Graph, S: seq<Site>, t: nat, radius: real, outcome: Outcome, anchors: map<nat, int>)
    requires Resolution(g, S, t, radius, outcome, anchors)
    ensures outcome.Assigned? ==> exists j: nat :: Claimant(g, S, t, radius, j) && S[j].faction == outcome.faction
    ensures outcome == Assigned(None) ==> exists j: nat :: CapitalInReach(g, S, t, radius, j) && S[j].faction.None?
  {
    var inRange := InRange(g, S, S[t].tile, Capitals(S), radius);
    InRangeIsReach(g, S, t, radius);
    if outcome.Assigned? {
      if |inRange| == 1 {
        var j := inRange[0];
        assert j in inRange;
        assert Claimant(g, S, t, radius, j);
      } else if |inRange| > 1 {
        if forall k :: 0 <= k < |inRange| ==> !HasCapital(S, inRange[k]) {
          assert false;
        }
        var k :| 0 <= k < |inRange| && ClosestCapital(g, S[t].tile, CapitalIds(S, inRange), anchors, k)
                  && S[inRange[k]].faction == outcome.faction;
        assert inRange[k] in inRange;
        assert Claimant(g, S, t, radius, inRange[k]);
      } else {
        var k: nat :| NearestLender(g, S, t, Capitals(S), radius, k) && S[k].faction == outcome.faction;
        assert Claimant(g, S, t, radius, k);
      }
      if outcome.faction.None? {
        assert |inRange| == 1;
        assert CapitalInReach(g, S, t, radius, inRange[0]) by { assert inRange[0] in inRange; }
      }
    }
  }

  /** How many capitals lie within the radius decides whether the settlement is kept, and how. */
  lemma ReachDecides(g: Graph, S: seq<Site>, t: nat, radius: real, outcome: Outcome, anchors: map<nat, int>)
    requires Resolution(g, S, t, radius, outcome, anchors)
    ensures forall j: nat ::
              CapitalInReach(g, S, t, radius, j) && (forall j': nat :: CapitalInReach(g, S, t, radius, j') ==> j' == j) ==>
                outcome == Assigned(S[j].faction)
    ensures forall j: nat, j': nat ::
              j != j' && CapitalInReach(g, S, t, radius, j) && CapitalInReach(g, S, t, radius, j') ==>
                && (outcome.Assigned? ==> outcome.faction.Some?)
                && (outcome.Removed? ==> exists k: nat :: CapitalInReach(g, S, t, radius, k) && S[k].faction.None?)
    ensures (forall j: nat :: !CapitalInReach(g, S, t, radius, j)) ==>
              (outcome.Removed? <==> forall j :: 0 <= j < |S| ==> !Lender(g, S, t, Capitals(S), radius, j))
  {
    var inRange := InRange(g, S, S[t].tile, Capitals(S), radius);
    InRangeIsReach(g, S, t, radius);
    forall j: nat | CapitalInReach(g, S, t, radius, j) && (forall j': nat :: CapitalInReach(g, S, t, radius, j') ==> j' == j)
      ensures outcome == Assigned(S[j].faction)
    {
      LoneInReach(g, S, t, radius, j);
    }
    forall j: nat, j': nat | j != j' && CapitalInReach(g, S, t, radius, j) && CapitalInReach(g, S, t, radius, j')
      ensures |inRange| > 1
    {
      assert j in inRange && j' in inRange;
    }
    if |inRange| > 1 && outcome.Removed? {
      assert inRange[0] in inRange;
      CapitalHasCapital(S, inRange[0]);
      var k :| 0 <= k < |inRange| && ClosestCapital(g, S[t].tile, CapitalIds(S, inRange), anchors, k)
                && S[inRange[k]].faction.None?;
      assert inRange[k] in inRange;
      assert CapitalInReach(g, S, t, radius, inRange[k]);
    }
    if forall j: nat :: !CapitalInReach(g, S, t, radius, j) {
      if |inRange| > 0 {
        assert inRange[0] in inRange;
      }
    }
  }

  /** A capital's own faction always has a capital: the capital itself, or an earlier one. */
  lemma CapitalHasCapital(S: seq<Site>, j: nat)
    requires j < |S| && IsCapital(S[j])
    ensures HasCapital(S, j)
  {
  }

  /** A lone capital within the radius is the whole of the capitals in range. */
  lemma LoneInReach(g: Graph, S: seq<Site>, t: nat, radius: real, j: nat)
    requires t < |S| && CapitalInReach(g, S, t, radius, j)
    requires forall j': nat :: CapitalInReach(g, S, t, radius, j') ==> j' == j
    ensures InRange(g, S, S[t].tile, Capitals(S), radius) == [j]
  {
    var inRange := InRange(g, S, S[t].tile, Capitals(S), radius);
    InRangeIsReach(g, S, t, radius);
    assert j in inRange;
    if |inRange| > 1 {
      TwoDistinct(inRange);
      assert false;
    }
    assert inRange[0] in inRange;
  }

  /**
   * The capital id of each candidate's faction, or None when its faction
   * has no capital.
   */
  ghost function CapitalIds(sites: seq<Site>, candidates: seq<nat>): (r: seq<Option<nat>>)
    requires forall k :: 0 <= k < |candidates| ==> candidates[k] < |sites|
    ensures |r| == |candidates|
    ensures forall k :: 0 <= k < |candidates| ==>
              r[k] == match CapitalOf(sites, sites[candidates[k]].faction)
                      case None => None
                      case Some(j) => Some(sites[j].id)
  {
    seq(|candidates|, k requires 0 <= k < |candidates| =>
      match CapitalOf(sites, sites[candidates[k]].faction)
      case None => None
      case Some(j) => Some(sites[j].id))
  }

  /** The score of candidate `k`: traversal distance from `tile` to its capital's anchor in `anchors`. */
  ghost function AnchorDistance(g: Graph, tile: int, caps: seq<Option<nat>>, anchors: map<nat, int>, k: nat): real
    requires k < |caps|
  {
    if caps[k].Some? && caps[k].value in anchors then g.traversal(tile, anchors[caps[k].value]) else 0.0
  }

  /** Candidate `k` has a capital and no candidate with a capital scores lower. */
  ghost predicate ClosestCapital(g: Graph, tile: int, caps: seq<Option<nat>>, anchors: map<nat, int>, k: nat) {
    && k < |caps| && caps[k].Some?
    && forall j :: 0 <= j < |caps| && caps[j].Some? ==>
         AnchorDistance(g, tile, caps, anchors, k) <= AnchorDistance(g, tile, caps, anchors, j)
  }

  /** Every candidate that has a capital has that capital's anchor in the memo. */
  ghost predicate Tracked(caps: seq<Option<nat>>, anchors: map<nat, int>) {
    forall k :: 0 <= k < |caps| && caps[k].Some? ==> caps[k].value in anchors
  }

  /** `scores` holds the score of each of the first |scores| candidates under `anchors`. */
  ghost predicate Scored(g: Graph, tile: int, caps: seq<Option<nat>>, anchors: map<nat, int>, scores: seq<real>) {
    && |scores| <= |caps|
    && forall k :: 0 <= k < |scores| && caps[k].Some? ==>
         caps[k].value in anchors && scores[k] == g.traversal(tile, anchors[caps[k].value])
  }

  /** One more candidate scored; earlier scores survive a memo that only grows. */
  lemma ScoredStep(g: Graph, tile: int, caps: seq<Option<nat>>, a0: map<nat, int>, a1: map<nat, int>,
                   scores: seq<real>, d: real)
    requires Scored(g, tile, caps, a0, scores) && |scores| < |caps| && Extends(a0, a1)
    requires caps[|scores|].Some? ==> caps[|scores|].value in a1 && d == g.traversal(tile, a1[caps[|scores|].value])
    ensures Scored(g, tile, caps, a1, scores + [d])
  {
  }

  lemma ScoredFinal(g: Graph, tile: int, caps: seq<Option<nat>>, anchors: map<nat, int>, scores: seq<real>)
    requires Scored(g, tile, caps, anchors, scores) && |scores| == |caps|
    ensures Tracked(caps, anchors)
    ensures forall k :: 0 <= k < |caps| && caps[k].Some? ==> AnchorDistance(g, tile, caps, anchors, k) == scores[k]
  {
  }

  /**
   * The running state of FindClosestCapitalFaction after |scores|
   * candidates: `best` lists, in order, the factions of the candidates
   * with a capital whose score is `bestDist` (their positions are
   * `bestAt`), and no candidate with a capital scores below `bestDist`.
   */
  ghost predicate BestSoFar(caps: seq<Option<nat>>, facs: seq<Option<Faction>>, scores: seq<real>,
                            bestDist: real, best: seq<Option<Faction>>, bestAt: seq<nat>)
  {
    && |scores| <= |caps| == |facs|
    && |best| == |bestAt|
    && (best == [] <==> forall k :: 0 <= k < |scores| ==> caps[k].None?)
    && (forall m :: 0 <= m < |bestAt| ==>
          bestAt[m] < |scores| && caps[bestAt[m]].Some? && best[m] == facs[bestAt[m]]
          && scores[bestAt[m]] == bestDist)
    && (best != [] ==> forall k :: 0 <= k < |scores| && caps[k].Some? ==> bestDist <= scores[k])
  }

  lemma BestReplace(caps: seq<Option<nat>>, facs: seq<Option<Faction>>, scores: seq<real>,
                    bestDist: real, best: seq<Option<Faction>>, bestAt: seq<nat>, d: real)
    requires BestSoFar(caps, facs, scores, bestDist, best, bestAt)
    requires |scores| < |caps| && caps[|scores|].Some?
    requires best == [] || d < bestDist
    ensures BestSoFar(caps, facs, scores + [d], d, [facs[|scores|]], [|scores|])
  {
  }

  lemma BestTie(caps: seq<Option<nat>>, facs: seq<Option<Faction>>, scores: seq<real>,
                bestDist: real, best: seq<Option<Faction>>, bestAt: seq<nat>, d: real)
    requires BestSoFar(caps, facs, scores, bestDist, best, bestAt)
    requires |scores| < |caps| && caps[|scores|].Some?
    requires best != [] && d == bestDist
    ensures BestSoFar(caps, facs, scores + [d], bestDist, best + [facs[|scores|]], bestAt + [|scores|])
  {
  }

  lemma BestKeep(caps: seq<Option<nat>>, facs: seq<Option<Faction>>, scores: seq<real>,
                 bestDist: real, best: seq<Option<Faction>>, bestAt: seq<nat>, d: real)
    requires BestSoFar(caps, facs, scores, bestDist, best, bestAt)
    requires |scores| < |caps| && caps[|scores|].Some?
    requires best != [] && d > bestDist
    ensures BestSoFar(caps, facs, scores + [d], bestDist, best, bestAt)
  {
  }

  lemma BestSkip(caps: seq<Option<nat>>, facs: seq<Option<Faction>>, scores: seq<real>,
                 bestDist: real, best: seq<Option<Faction>>, bestAt: seq<nat>)
    requires BestSoFar(caps, facs, scores, bestDist, best, bestAt)
    requires |scores| < |caps| && caps[|scores|].None?
    ensures BestSoFar(caps, facs, scores + [0.0], bestDist, best, bestAt)
  {
  }

  /** With no best candidate after every candidate was scored, none of them has a capital. */
  lemma NoClosest(sites: seq<Site>, candidates: seq<nat>, scores: seq<real>,
                  bestDist: real, best: seq<Option<Faction>>, bestAt: seq<nat>)
    requires forall k :: 0 <= k < |candidates| ==> candidates[k] < |sites|
    requires BestSoFar(CapitalIds(sites, candidates),
                       seq(|candidates|, k requires 0 <= k < |candidates| => sites[candidates[k]].faction),
                       scores, bestDist, best, bestAt)
    requires |scores| == |candidates| && best == []
    ensures forall k :: 0 <= k < |candidates| ==> !HasCapital(sites, candidates[k])
  {
    var caps := CapitalIds(sites, candidates);
    forall k | 0 <= k < |candidates|
      ensures !HasCapital(sites, candidates[k])
    {
      assert caps[k].None?;
    }
  }

  /** The drawn tie `m` is a candidate at minimal distance, and its faction is the result. */
  lemma DrawnClosest(g: Graph, sites: seq<Site>, tile: int, candidates: seq<nat>, anchors: map<nat, int>,
                     scores: seq<real>, bestDist: real, best: seq<Option<Faction>>, bestAt: seq<nat>, m: nat)
    requires forall k :: 0 <= k < |candidates| ==> candidates[k] < |sites|
    requires BestSoFar(CapitalIds(sites, candidates),
                       seq(|candidates|, k requires 0 <= k < |candidates| => sites[candidates[k]].faction),
                       scores, bestDist, best, bestAt)
    requires |scores| == |candidates| && m < |best|
    requires forall k :: 0 <= k < |candidates| && CapitalIds(sites, candidates)[k].Some? ==>
               AnchorDistance(g, tile, CapitalIds(sites, candidates), anchors, k) == scores[k]
    ensures bestAt[m] < |candidates|
    ensures ClosestCapital(g, tile, CapitalIds(sites, candidates), anchors, bestAt[m])
    ensures best[m] == sites[candidates[bestAt[m]]].faction
  {
  }

  /** How many positions 0..n-1 there are, in order. */
  function Indices(n: nat): (r: seq<nat>)
    ensures |r| == n && forall k :: 0 <= k < n ==> r[k] == k
    ensures forall k: nat :: k in r <==> k < n
  {
    if n == 0 then [] else Indices(n - 1) + [n - 1]
  }

  /** The elements of `xs` that satisfy `p`, in order (LINQ `Where`). */
  function Filter(xs: seq<nat>, p: nat -> bool): (r: seq<nat>)
    ensures |r| <= |xs|
    ensures forall x :: x in r <==> x in xs && p(x)
    decreases |xs|
  {
    if |xs| == 0 then []
    else if p(xs[0]) then [xs[0]] + Filter(xs[1..], p)
    else Filter(xs[1..], p)
  }

  /** Strictly increasing, hence without repetitions. */
  ghost predicate Increasing(xs: seq<nat>) {
    forall a, b :: 0 <= a < b < |xs| ==> xs[a] < xs[b]
  }

  /** The first two entries of a strictly increasing list are two different members of it. */
  lemma TwoDistinct(xs: seq<nat>)
    requires Increasing(xs) && |xs| >= 2
    ensures xs[0] != xs[1] && xs[0] in xs && xs[1] in xs
  {
  }

  lemma IndicesIncreasing(n: nat)
    ensures Increasing(Indices(n))
  {
  }

  /** Filtering a strictly increasing list keeps it strictly increasing. */
  lemma {:induction false} FilterIncreasing(xs: seq<nat>, p: nat -> bool)
    requires Increasing(xs)
    ensures Increasing(Filter(xs, p))
    decreases |xs|
  {
    if |xs| > 0 {
      var tail := xs[1..];
      assert Increasing(tail) by {
        forall a, b | 0 <= a < b < |tail| ensures tail[a] < tail[b] {
          assert tail[a] == xs[a + 1] && tail[b] == xs[b + 1];
        }
      }
      FilterIncreasing(tail, p);
      var r := Filter(tail, p);
      if p(xs[0]) {
        var r' := [xs[0]] + r;
        forall a, b | 0 <= a < b < |r'| ensures r'[a] < r'[b] {
          assert r'[b] == r[b - 1];
          if a == 0 {
            assert r[b - 1] in r;
            var i :| 0 <= i < |tail| && tail[i] == r[b - 1];
            assert tail[i] == xs[i + 1];
          } else {
            assert r'[a] == r[a - 1];
          }
        }
        assert Filter(xs, p) == r';
      }
    }
  }

  lemma FilterIncreasingAll(xs: seq<nat>)
    requires Increasing(xs)
    ensures forall p: nat -> bool :: Increasing(Filter(xs, p))
  {
    forall p: nat -> bool ensures Increasing(Filter(xs, p)) {
      FilterIncreasing(xs, p);
    }
  }

  /** The indices of the capitals among `sites` (the defName test of ResolveSettlementFaction). */
  function Capitals(sites: seq<Site>): (r: seq<nat>)
    ensures forall k :: 0 <= k < |r| ==> r[k] < |sites|
    ensures forall j: nat :: j in r <==> j < |sites| && IsCapital(sites[j])
  {
    var r := Filter(Indices(|sites|), (j: nat) => j < |sites| && IsCapital(sites[j]));
    assert forall k :: 0 <= k < |r| ==> r[k] in r;
    r
  }

  /** The capitals among `capitals` within `radius` of `tile`, in order. */
  function InRange(g: Graph, sites: seq<Site>, tile: int, capitals: seq<nat>, radius: real): (r: seq<nat>)
    requires forall k :: 0 <= k < |capitals| ==> capitals[k] < |sites|
    ensures forall k :: 0 <= k < |r| ==> r[k] < |sites|
    ensures forall j: nat :: j in r <==> j in capitals && g.approx(tile, sites[j].tile) <= radius
  {
    var r := Filter(capitals, (j: nat) => j < |sites| && g.approx(tile, sites[j].tile) <= radius);
    assert forall k :: 0 <= k < |r| ==> r[k] in r;
    r
  }

  /** The `foreach (var cap in capitals)` of ResolveSettlementFaction that collects `inRange`. */
  method CapitalsInRange(g: Graph, sites: seq<Site>, tile: int, capitals: seq<nat>, radius: real)
    returns (inRange: seq<nat>)
    requires forall k :: 0 <= k < |capitals| ==> capitals[k] < |sites|
    ensures inRange == InRange(g, sites, tile, capitals, radius)
  {
    inRange := [];
    var i := |capitals|;
    while i > 0
      invariant 0 <= i <= |capitals|
      invariant inRange == InRange(g, sites, tile, capitals[i..], radius)
    {
      i := i - 1;
      assert capitals[i..][1..] == capitals[i + 1..];
      if g.approx(tile, sites[capitals[i]].tile) <= radius {
        inRange := [capitals[i]] + inRange;
      }
    }
    assert capitals[0..] == capitals;
  }

  /** Some capital among `capitals` lies within `radius` of `tile`. */
  ghost predicate WithinAny(g: Graph, sites: seq<Site>, tile: int, capitals: seq<nat>, radius: real)
    requires forall k :: 0 <= k < |capitals| ==> capitals[k] < |sites|
  {
    exists k :: 0 <= k < |capitals| && g.approx(tile, sites[capitals[k]].tile) <= radius
  }

  /** The `withinAnyCapital` loop, which stops at the first capital in range. */
  method WithinAnyCapital(g: Graph, sites: seq<Site>, tile: int, capitals: seq<nat>, radius: real)
    returns (within: bool)
    requires forall k :: 0 <= k < |capitals| ==> capitals[k] < |sites|
    ensures within <==> WithinAny(g, sites, tile, capitals, radius)
  {
    within := false;
    var i := 0;
    while i < |capitals|
      invariant 0 <= i <= |capitals|
      invariant forall k :: 0 <= k < i ==> g.approx(tile, sites[capitals[k]].tile) > radius
    {
      if g.approx(tile, sites[capitals[i]].tile) <= radius {
        within := true;
        break;
      }
      i := i + 1;
    }
  }

  /**
   * Settlement `j` may lend its faction to settlement `t`: it is another
   * settlement, it is owned, and it lies within the radius of a capital.
   */
  ghost predicate Lender(g: Graph, sites: seq<Site>, t: nat, capitals: seq<nat>, radius: real, j: nat)
    requires forall k :: 0 <= k < |capitals| ==> capitals[k] < |sites|
    requires j < |sites|
  {
    j != t && Owned(sites[j]) && WithinAny(g, sites, sites[j].tile, capitals, radius)
  }

  /**
   * `k` is the lender the source picks: no lender is nearer to `t`, and
   * every lender earlier in the list is strictly farther (ties go to the
   * first, by the strict `<`).
   */
  ghost predicate NearestLender(g: Graph, sites: seq<Site>, t: nat, capitals: seq<nat>, radius: real, k: nat)
    requires forall m :: 0 <= m < |capitals| ==> capitals[m] < |sites|
    requires t < |sites|
  {
    && k < |sites| && Lender(g, sites, t, capitals, radius, k)
    && (forall j :: 0 <= j < |sites| && Lender(g, sites, t, capitals, radius, j) ==>
          g.approx(sites[t].tile, sites[k].tile) <= g.approx(sites[t].tile, sites[j].tile))
    && (forall j :: 0 <= j < k && Lender(g, sites, t, capitals, radius, j) ==>
          g.approx(sites[t].tile, sites[k].tile) < g.approx(sites[t].tile, sites[j].tile))
  }

  /**
   * AssignFactionFromCapitalRadiusSettlements, without the assignment:
   * the faction of the nearest lender, or None (the source's `false`)
   * when there is no lender.
   */
  method NearestLenderFaction(g: Graph, sites: seq<Site>, t: nat, capitals: seq<nat>, radius: real)
    returns (r: Option<Faction>)
    requires t < |sites|
    requires forall k :: 0 <= k < |capitals| ==> capitals[k] < |sites|
    ensures r.None? <==> forall j :: 0 <= j < |sites| ==> !Lender(g, sites, t, capitals, radius, j)
    ensures r.Some? ==> exists k: nat :: NearestLender(g, sites, t, capitals, radius, k) && sites[k].faction == r
  {
    // 1) the lenders, in list order
    var candidates: seq<nat> := [];
    var j := 0;
    while j < |sites|
      invariant 0 <= j <= |sites|
      invariant forall m :: 0 <= m < |candidates| ==> candidates[m] < j
      invariant forall m, n :: 0 <= m < n < |candidates| ==> candidates[m] < candidates[n]
      invariant forall x: nat :: x in candidates <==> x < j && Lender(g, sites, t, capitals, radius, x)
    {
      if j != t && sites[j].faction.Some? {
        var within := WithinAnyCapital(g, sites, sites[j].tile, capitals, radius);
        if within {
          candidates := candidates + [j];
        }
      }
      j := j + 1;
    }
    if |candidates| == 0 {
      return None;
    }
    // 2) the nearest of them
    var target := sites[t].tile;
    var bestDist := 0.0;
    var nearest: Option<nat> := None;
    ghost var at := 0;
    var m := 0;
    while m < |candidates|
      invariant 0 <= m <= |candidates|
      invariant nearest.None? <==> m == 0
      invariant nearest.Some? ==> at < m && candidates[at] == nearest.value
                                  && bestDist == g.approx(target, sites[nearest.value].tile)
      invariant forall n :: 0 <= n < m ==> bestDist <= g.approx(target, sites[candidates[n]].tile)
      invariant nearest.Some? ==> forall n :: 0 <= n < at ==> bestDist < g.approx(target, sites[candidates[n]].tile)
    {
      var d := g.approx(target, sites[candidates[m]].tile);
      if nearest.None? || d < bestDist {
        bestDist := d;
        nearest := Some(candidates[m]);
        at := m;
      }
      m := m + 1;
    }
    var k := nearest.value;
    forall x | 0 <= x < |sites| && Lender(g, sites, t, capitals, radius, x)
      ensures bestDist <= g.approx(target, sites[x].tile)
      ensures x < k ==> bestDist < g.approx(target, sites[x].tile)
    {
      assert x in candidates;
      var n :| 0 <= n < |candidates| && candidates[n] == x;
      if x < k {
        assert n < at;
      }
    }
    assert NearestLender(g, sites, t, capitals, radius, k);
    r := sites[k].faction;
  }
}

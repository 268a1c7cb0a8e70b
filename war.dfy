/**
 * WorldWarManager: while the goodwill component reports a war situation,
 * every `interval` ticks either a new siege is prepared between two
 * settlements or the running one advances; a resolved siege may hand the
 * defender to the attacker's faction.
 */
module War {
  import opened Wrappers
  import opened Numeric
  import opened World
  import opened SettlementStrength

  /** Ticks in an in-game day. */
  const Day: int := 60000

  /** The radius, in ApproxDistanceInTiles units, within which a settlement can attack the defender. */
  const NearbyRadius: real := 10.0

  /** A siege lasts a drawn multiple of this many of its own ticks. */
  const WarTimeUnit: int := 25000

  /** TryStartSiege's candidates: owned, by a faction that is neither hidden nor the player's. */
  predicate Eligible(s: Site) {
    s.faction.Some? && !s.faction.value.hidden && !s.faction.value.isPlayer
  }

  /** The `Where(...).ToList()` over the world's settlements, in list order. */
  function EligibleSites(sites: seq<Site>): (r: seq<Site>)
    ensures |r| <= |sites|
    ensures forall s :: s in r <==> s in sites && Eligible(s)
    ensures DistinctIds(sites) ==> DistinctIds(r)
    decreases |sites|
  {
    if |sites| == 0 then []
    else
      var rest := EligibleSites(sites[..|sites| - 1]);
      assert sites == sites[..|sites| - 1] + [sites[|sites| - 1]];
      assert DistinctIds(sites) ==> forall s :: s in rest ==> s.id != sites[|sites| - 1].id;
      if Eligible(sites[|sites| - 1]) then rest + [sites[|sites| - 1]] else rest
  }

  /** The distance from candidate `p` to candidate `j`, as the defender search measures it. */
  function DistFrom(g: Graph, elig: seq<Site>, p: nat): nat -> real {
    (j: nat) => if p < |elig| && j < |elig| then g.approx(elig[p].tile, elig[j].tile) else 0.0
  }

  /** The distance from candidate `j` to candidate `d`, as the attacker searches measure it. */
  function DistTo(g: Graph, elig: seq<Site>, d: nat): nat -> real {
    (j: nat) => if d < |elig| && j < |elig| then g.approx(elig[j].tile, elig[d].tile) else 0.0
  }

  /** Every candidate but the one at `p` (the source's reference comparison `s == x`). */
  function Except(p: nat): nat -> bool {
    j => j != p
  }

  /** The candidates other than the defender `d` among the first `n` that lie within NearbyRadius of it, in order. */
  function Nearby(g: Graph, elig: seq<Site>, d: nat, n: nat): (r: seq<nat>)
    requires d < |elig| && n <= |elig|
    ensures forall i :: 0 <= i < |r| ==> r[i] < n
    ensures forall x: nat :: x in r <==> x < n && x != d && g.approx(elig[x].tile, elig[d].tile) <= NearbyRadius
  {
    if n == 0 then []
    else
      var rest := Nearby(g, elig, d, n - 1);
      if n - 1 != d && g.approx(elig[n - 1].tile, elig[d].tile) <= NearbyRadius then rest + [n - 1] else rest
  }

  /**
   * The choice of TryStartSiege among the candidates `elig`, as positions
   * (attacker, defender): the provisional attacker is RandomElement with
   * draw `pick`, the defender the candidate nearest to it, and the final
   * attacker RandomElement of the nearby candidates with draw
   * `nearbyPick`, or else the candidate nearest to the defender.
   */
  function Selection(g: Graph, elig: seq<Site>, pick: nat, nearbyPick: nat): Option<(nat, nat)> {
    if |elig| < 2 then None
    else
      var p := pick % |elig|;
      var d := ArgMin(|elig|, DistFrom(g, elig, p), Except(p));
      if d.None? || d.value >= |elig| then None
      else
        var near := Nearby(g, elig, d.value, |elig|);
        if |near| > 0 then Some((near[nearbyPick % |near|], d.value))
        else
          var a := ArgMin(|elig|, DistTo(g, elig, d.value), Except(d.value));
          Some((if a.Some? then a.value else p, d.value))
  }

  /**
   * With two or more candidates a pair is always chosen: two different
   * candidates, the defender the first of those nearest to the
   * provisional attacker (other than it), the attacker a nearby candidate
   * when there is one and otherwise the first of those nearest to the
   * defender. Nothing asks the two to belong to different factions.
   */
  lemma SelectionMeaning(g: Graph, elig: seq<Site>, pick: nat, nearbyPick: nat)
    ensures Selection(g, elig, pick, nearbyPick).Some? <==> |elig| >= 2
    ensures Selection(g, elig, pick, nearbyPick).Some? ==>
              var (a, d) := Selection(g, elig, pick, nearbyPick).value;
              var p := pick % |elig|;
              && a < |elig| && d < |elig| && a != d
              && IsNearest(|elig|, DistFrom(g, elig, p), Except(p), d)
              && ((exists j: nat :: j < |elig| && j != d && g.approx(elig[j].tile, elig[d].tile) <= NearbyRadius) ==>
                    g.approx(elig[a].tile, elig[d].tile) <= NearbyRadius)
              && ((forall j: nat :: j < |elig| && j != d ==> g.approx(elig[j].tile, elig[d].tile) > NearbyRadius) ==>
                    IsNearest(|elig|, DistTo(g, elig, d), Except(d), a))
  {
    if |elig| >= 2 {
      var p := pick % |elig|;
      var other := if p == 0 then 1 else 0;
      assert Except(p)(other);
      ArgMinIsNearest(|elig|, DistFrom(g, elig, p), Except(p));
      var d := ArgMin(|elig|, DistFrom(g, elig, p), Except(p)).value;
      var near := Nearby(g, elig, d, |elig|);
      if |near| > 0 {
        assert near[nearbyPick % |near|] in near;
      } else {
        var other' := if d == 0 then 1 else 0;
        assert Except(d)(other');
        ArgMinIsNearest(|elig|, DistTo(g, elig, d), Except(d));
        forall j: nat | j < |elig| && j != d
          ensures g.approx(elig[j].tile, elig[d].tile) > NearbyRadius
        {
          assert j !in near;
        }
      }
    }
  }

  /**
   * The defender is not required to belong to another faction: of two
   * candidates of one faction, the first drawn as provisional attacker,
   * the second is always its defender and the first its attacker.
   */
  lemma SameFactionSiege(g: Graph, x: Site, y: Site, nearbyPick: nat)
    requires Eligible(x) && Eligible(y) && x.faction == y.faction
    ensures EligibleSites([x, y]) == [x, y]
    ensures Selection(g, [x, y], 0, nearbyPick) == Some((0, 1))
  {
    assert [x, y][..1] == [x];
    assert [x][..0] == [];
    var elig := [x, y];
    var from, to := DistFrom(g, elig, 0), DistTo(g, elig, 1);
    assert ArgMin(1, from, Except(0)) == None;
    assert ArgMin(2, from, Except(0)) == Some(1);
    var near := Nearby(g, elig, 1, 2);
    assert Nearby(g, elig, 1, 1) == (if g.approx(x.tile, y.tile) <= NearbyRadius then [0] else []);
    assert near == Nearby(g, elig, 1, 1);
    if |near| > 0 {
      assert near == [0];
    } else {
      assert ArgMin(1, to, Except(1)) == Some(0);
      assert ArgMin(2, to, Except(1)) == Some(0);
    }
  }

  /**
   * The capture roll of ResolveSiege: the draw `percent` in [0, 1] against
   * sigma(0.1 * (attackerSP / 10 - defenderSP)), sigma the logistic function.
   */
  predicate CaptureSucceeds(percent: real, sigma: real -> real, attackerSP: real, defenderSP: real) {
    percent < sigma(0.1 * (attackerSP / 10.0 - defenderSP))
  }

  /**
   * A stronger attacker, or a weaker defender, never turns a capture into
   * a failure; an attacker with ten times the defender's strength has an
   * even chance.
   */
  lemma CaptureMonotone(percent: real, sigma: real -> real, a: real, a': real, d: real, d': real)
    requires IsSigmoid(sigma) && a <= a' && d' <= d
    ensures CaptureSucceeds(percent, sigma, a, d) ==> CaptureSucceeds(percent, sigma, a', d')
    ensures a == 10.0 * d ==> (CaptureSucceeds(percent, sigma, a, d) <==> percent < 0.5)
  {
    assert 0.1 * (a / 10.0 - d) <= 0.1 * (a' / 10.0 - d');
    if a == 10.0 * d {
      assert 0.1 * (a / 10.0 - d) == 0.0;
    }
  }

  /**
   * The ownership change of a resolved siege between the settlements with
   * ids `atk` and `def`: when both are in the world and the roll
   * succeeds, the defender takes the attacker's faction; `sp` holds the
   * settlement strengths.
   */
  function AfterSiege(sites: seq<Site>, atk: nat, def: nat, sp: map<nat, real>, percent: real,
                      sigma: real -> real): seq<Site>
  {
    var ai := IndexOfId(sites, atk);
    var di := IndexOfId(sites, def);
    if ai.Some? && di.Some? && CaptureSucceeds(percent, sigma, Current(sp, atk), Current(sp, def))
    then sites[di.value := sites[di.value].(faction := sites[ai.value].faction)]
    else sites
  }

  /**
   * A siege changes at most one settlement, the defender, and only its
   * owner, which becomes the attacker's; it does so exactly when both are
   * in the world and the roll succeeds.
   */
  lemma AfterSiegeMeaning(sites: seq<Site>, atk: nat, def: nat, sp: map<nat, real>, percent: real,
                          sigma: real -> real)
    requires DistinctIds(sites)
    ensures var r := AfterSiege(sites, atk, def, sp, percent, sigma);
            && |r| == |sites|
            && (forall j :: 0 <= j < |sites| && sites[j].id != def ==> r[j] == sites[j])
            && (forall j :: 0 <= j < |sites| ==> r[j] == sites[j].(faction := r[j].faction))
            && (forall j, k :: 0 <= j < |sites| && 0 <= k < |sites| && sites[j].id == def && sites[k].id == atk ==>
                  r[j].faction == (if CaptureSucceeds(percent, sigma, Current(sp, atk), Current(sp, def))
                                   then sites[k].faction else sites[j].faction))
  {
    var ai := IndexOfId(sites, atk);
    var di := IndexOfId(sites, def);
    forall j, k | 0 <= j < |sites| && 0 <= k < |sites| && sites[j].id == def && sites[k].id == atk
      ensures ai == Some(k) && di == Some(j)
    {
      assert ai.Some? && di.Some?;
    }
  }

  /** The manager's fields, as one value. */
  datatype WarState = WarState(
    siegeActive: bool,
    now: int,
    interval: int,
    siegeNow: int,
    startSiegeTick: int,
    travelProgress: real,
    attacker: Option<nat>,
    defender: Option<nat>)

  /**
   * The outside inputs of one tick: whether the goodwill component exists
   * and reports a war situation, Prefs.DevMode, TicksGame, and the draws
   * the tick may make (the interval factor Rand.Range(2, 10), the two
   * RandomElement picks, the war-time factor Rand.Range(1, 5) and the
   * capture roll Rand.Range(0, 1)).
   */
  datatype TickInput = TickInput(
    atWar: bool,
    devMode: bool,
    ticksGame: int,
    intervalFactor: int,
    pick: nat,
    nearbyPick: nat,
    warTimeFactor: int,
    percent: real)

  /** ResolveSiege: with both parties set, the siege ends, and the pair is forgotten, however the roll went. */
  function Resolve(w: WarState, sites: seq<Site>, sp: map<nat, real>, percent: real, sigma: real -> real): (WarState, seq<Site>) {
    if w.attacker.None? || w.defender.None? then (w, sites)
    else
      (w.(siegeActive := false, siegeNow := 0, attacker := None, defender := None),
       AfterSiege(sites, w.attacker.value, w.defender.value, sp, percent, sigma))
  }

  /**
   * TryStartSiege: with a chosen pair, remember it; in dev mode the siege
   * is active at once, otherwise it is scheduled after the travel time
   * 60000 * distance / 6 and stays inactive.
   */
  function Start(w: WarState, g: Graph, sites: seq<Site>, inp: TickInput): WarState {
    var elig := EligibleSites(sites);
    var pair := Selection(g, elig, inp.pick, inp.nearbyPick);
    if pair.None? || pair.value.0 >= |elig| || pair.value.1 >= |elig| then w
    else
      var (a, d) := pair.value;
      var w1 := w.(attacker := Some(elig[a].id), defender := Some(elig[d].id));
      if inp.devMode then w1.(siegeActive := true)
      else
        var distance := g.approx(elig[a].tile, elig[d].tile);
        w1.(siegeActive := false, startSiegeTick := inp.ticksGame + RoundToInt(60000.0 * distance / 6.0),
            travelProgress := 0.0)
  }

  /**
   * SiegeTick: an inactive siege starts once its start tick is reached
   * with both parties set; outside dev mode an active siege counts one
   * tick and is resolved once the count reaches a war time drawn afresh
   * on this call.
   */
  function Advance(w: WarState, sites: seq<Site>, sp: map<nat, real>, inp: TickInput, sigma: real -> real): (WarState, seq<Site>) {
    if !w.siegeActive && (inp.ticksGame < w.startSiegeTick || w.defender.None? || w.attacker.None?) then (w, sites)
    else
      var w1 := if w.siegeActive then w else w.(siegeActive := true, siegeNow := 0);
      if inp.devMode then (w1, sites)
      else
        var w2 := w1.(siegeNow := w1.siegeNow + 1);
        if w2.siegeNow >= inp.warTimeFactor * WarTimeUnit then Resolve(w2, sites, sp, inp.percent, sigma)
        else (w2, sites)
  }

  /** WorldComponentTick, as a function of the fields, the settlements and the inputs. */
  function TickResult(w: WarState, g: Graph, sites: seq<Site>, sp: map<nat, real>, inp: TickInput,
                      sigma: real -> real): (WarState, seq<Site>)
  {
    if !inp.atWar then (w, sites)
    else
      var w0 := if w.interval == 0 then w.(interval := if inp.devMode then 1 else RoundToInt((inp.intervalFactor * Day) as real)) else w;
      var (n, fire) := PeriodicStep(w0.now, w0.interval);
      if !fire then (w0.(now := n), sites)
      else
        var w1 := w0.(now := 0);
        var (w2, s2) := if !w1.siegeActive then (Start(w1, g, sites, inp), sites) else Advance(w1, sites, sp, inp, sigma);
        if inp.devMode && w2.siegeActive then Resolve(w2, s2, sp, inp.percent, sigma) else (w2, s2)
  }

  lemma RoundWhole(k: int)
    ensures RoundToInt(k as real) == k
  {
    assert (k as real).Floor == k;
  }

  /**
   * A tick without a war situation changes nothing. Otherwise the
   * interval, once 0, becomes 1 in dev mode and a whole number of days
   * from 2 to 9 outside it, and is never changed again; the counter then
   * stays below the interval, and the phase runs exactly on the tick that
   * brings it to the interval.
   */
  lemma TickCounter(w: WarState, g: Graph, sites: seq<Site>, sp: map<nat, real>, inp: TickInput, sigma: real -> real)
    requires 2 <= inp.intervalFactor <= 9
    ensures !inp.atWar ==> TickResult(w, g, sites, sp, inp, sigma) == (w, sites)
    ensures inp.atWar ==>
              var r := TickResult(w, g, sites, sp, inp, sigma).0;
              && (w.interval != 0 ==> r.interval == w.interval)
              && (w.interval == 0 && inp.devMode ==> r.interval == 1 && (0 <= w.now ==> r.now == 0))
              && (w.interval == 0 && !inp.devMode ==> r.interval == inp.intervalFactor * Day && 2 * Day <= r.interval <= 9 * Day)
              && (0 <= w.now < r.interval ==> 0 <= r.now < r.interval)
              && (0 <= w.now ==> (r.now == 0 <==> w.now + 1 >= r.interval))
  {
    RoundWhole(inp.intervalFactor * Day);
  }

  /**
   * Outside dev mode a tick that starts with no active siege ends with
   * none and leaves every settlement as it was: TryStartSiege only
   * schedules, and the branch that would start the scheduled siege is
   * reached only with a siege already active.
   */
  lemma NoSiegeOutsideDevMode(w: WarState, g: Graph, sites: seq<Site>, sp: map<nat, real>, inp: TickInput,
                              sigma: real -> real)
    requires !inp.devMode && !w.siegeActive
    ensures !TickResult(w, g, sites, sp, inp, sigma).0.siegeActive
    ensures TickResult(w, g, sites, sp, inp, sigma).1 == sites
  {
  }

  /**
   * In dev mode a tick that runs the phase ends with no active siege
   * unless a party is missing: the siege it starts, or the one running,
   * is resolved on the spot.
   */
  lemma DevModeResolvesAtOnce(w: WarState, g: Graph, sites: seq<Site>, sp: map<nat, real>, inp: TickInput,
                              sigma: real -> real)
    requires inp.devMode && inp.atWar && 0 <= w.now
    ensures var r := TickResult(w, g, sites, sp, inp, sigma).0;
            r.now == 0 ==> !r.siegeActive || r.attacker.None? || r.defender.None?
  {
  }

  /**
   * The war time of a running siege is drawn again on every call: the
   * same siege at the same count resolves with one draw and goes on with
   * another, once the count lies between one and four units.
   */
  lemma WarTimeRedrawn(w: WarState, sites: seq<Site>, sp: map<nat, real>, inp: TickInput, sigma: real -> real)
    requires w.siegeActive && w.attacker.Some? && w.defender.Some? && !inp.devMode
    requires WarTimeUnit <= w.siegeNow + 1 < 4 * WarTimeUnit
    ensures !Advance(w, sites, sp, inp.(warTimeFactor := 1), sigma).0.siegeActive
    ensures Advance(w, sites, sp, inp.(warTimeFactor := 4), sigma).0.siegeActive
  {
  }

  /** The ids of TryStartSiege's candidates. */
  ghost function EligibleIds(sites: seq<Site>): set<nat> {
    set s | s in sites && Eligible(s) :: s.id
  }

  /**
   * Fewer than two candidates leave TryStartSiege without effect; with
   * two or more a pair of candidates is remembered, two different
   * settlements when ids are distinct, and the siege is active exactly in
   * dev mode.
   */
  lemma StartMeaning(w: WarState, g: Graph, sites: seq<Site>, inp: TickInput)
    ensures |EligibleSites(sites)| < 2 ==> Start(w, g, sites, inp) == w
    ensures |EligibleSites(sites)| >= 2 ==>
              var r := Start(w, g, sites, inp);
              && r.attacker.Some? && r.defender.Some?
              && r.attacker.value in EligibleIds(sites) && r.defender.value in EligibleIds(sites)
              && (DistinctIds(sites) ==> r.attacker != r.defender)
              && r.siegeActive == inp.devMode
              && r.now == w.now && r.interval == w.interval && r.siegeNow == w.siegeNow
  {
    var elig := EligibleSites(sites);
    SelectionMeaning(g, elig, inp.pick, inp.nearbyPick);
    if |elig| >= 2 {
      var pair := Selection(g, elig, inp.pick, inp.nearbyPick);
      var a, d := pair.value.0, pair.value.1;
      assert a < |elig| && d < |elig| && a != d;
      assert elig[a] in elig && elig[d] in elig;
      var r := Start(w, g, sites, inp);
      assert r.attacker == Some(elig[a].id) && r.defender == Some(elig[d].id);
      assert elig[a].id in EligibleIds(sites) && elig[d].id in EligibleIds(sites);
    }
  }

  /** The manager. It is not saved: a loaded game starts from these defaults. */
  class WarManager {
    var siegeActive: bool
    var now: int
    var interval: int
    var siegeNow: int
    var startSiegeTick: int
    var travelProgress: real
    var attacker: Option<nat>
    var defender: Option<nat>

    constructor ()
      ensures State() == WarState(false, 0, 0, 0, 0, 0.0, None, None)
    {
      siegeActive := false;
      now := 0;
      interval := 0;
      siegeNow := 0;
      startSiegeTick := 0;
      travelProgress := 0.0;
      attacker := None;
      defender := None;
    }

    function State(): WarState
      reads this
    {
      WarState(siegeActive, now, interval, siegeNow, startSiegeTick, travelProgress, attacker, defender)
    }

    /**
     * WorldComponentTick, on the settlement registry `reg` and the
     * settlement strengths `sp`; `sigma` is the logistic function.
     */
    method Tick(g: Graph, reg: Registry, sp: SettlementStrongPoints, inp: TickInput, sigma: real -> real)
      requires reg.Valid()
      modifies this, reg
      ensures reg.Valid()
      ensures (State(), reg.sites) == TickResult(old(State()), g, old(reg.sites), sp.settlementSP, inp, sigma)
    {
      if !inp.atWar {
        return;
      }
      if interval == 0 {
        interval := if inp.devMode then 1 else RoundToInt((inp.intervalFactor * Day) as real);
      }
      now := now + 1;
      if now < interval {
        return;
      }
      now := 0;
      if !siegeActive {
        TryStartSiege(g, reg.sites, inp);
      } else {
        SiegeTick(reg, sp, inp, sigma);
      }
      if inp.devMode && siegeActive {
        ResolveSiege(reg, sp, inp.percent, sigma);
      }
    }

    /** TryStartSiege over the world's settlements. */
    method TryStartSiege(g: Graph, sites: seq<Site>, inp: TickInput)
      modifies this
      ensures State() == Start(old(State()), g, sites, inp)
    {
      var elig := EligibleSites(sites);
      var pair := SelectPair(g, elig, inp.pick, inp.nearbyPick);
      if pair.None? || pair.value.0 >= |elig| || pair.value.1 >= |elig| {
        return;
      }
      var (a, d) := pair.value;
      attacker := Some(elig[a].id);
      defender := Some(elig[d].id);
      var distance := g.approx(elig[a].tile, elig[d].tile);
      if inp.devMode {
        siegeActive := true;
      } else {
        siegeActive := false;
        startSiegeTick := inp.ticksGame + RoundToInt(60000.0 * distance / 6.0);
        travelProgress := 0.0;
      }
    }

    /** SiegeTick. */
    method SiegeTick(reg: Registry, sp: SettlementStrongPoints, inp: TickInput, sigma: real -> real)
      requires reg.Valid()
      modifies this, reg
      ensures reg.Valid()
      ensures (State(), reg.sites) == Advance(old(State()), old(reg.sites), sp.settlementSP, inp, sigma)
    {
      if !siegeActive {
        if inp.ticksGame < startSiegeTick || defender.None? || attacker.None? {
          return;
        }
        siegeActive := true;
        siegeNow := 0;
      }
      if !inp.devMode {
        siegeNow := siegeNow + 1;
        var warTime := inp.warTimeFactor * WarTimeUnit;
        if siegeNow >= warTime {
          ResolveSiege(reg, sp, inp.percent, sigma);
        }
      }
    }

    /** ResolveSiege, with the capture roll `percent`. */
    method ResolveSiege(reg: Registry, sp: SettlementStrongPoints, percent: real, sigma: real -> real)
      requires reg.Valid()
      modifies this, reg
      ensures reg.Valid()
      ensures (State(), reg.sites) == Resolve(old(State()), old(reg.sites), sp.settlementSP, percent, sigma)
    {
      if attacker.None? || defender.None? {
        return;
      }
      var defenderSP := sp.GetCurrentSP(defender.value);
      var attackerSP := sp.GetCurrentSP(attacker.value) / 10.0;
      var dynamicSP := attackerSP - defenderSP;
      var ai := IndexOfId(reg.sites, attacker.value);
      var di := IndexOfId(reg.sites, defender.value);
      if percent < sigma(0.1 * dynamicSP) && ai.Some? && di.Some? {
        reg.SetFaction(di.value, reg.sites[ai.value].faction);
      }
      siegeActive := false;
      siegeNow := 0;
      attacker := None;
      defender := None;
    }
  }

  /** The pair choice of TryStartSiege, with its two running-minimum loops. */
  method SelectPair(g: Graph, elig: seq<Site>, pick: nat, nearbyPick: nat) returns (r: Option<(nat, nat)>)
    ensures r == Selection(g, elig, pick, nearbyPick)
  {
    if |elig| < 2 {
      return None;
    }
    var p := pick % |elig|;
    var d := Nearest(|elig|, DistFrom(g, elig, p), Except(p));
    if d.None? || d.value >= |elig| {
      return None;
    }
    var near := Nearby(g, elig, d.value, |elig|);
    if |near| > 0 {
      return Some((near[nearbyPick % |near|], d.value));
    }
    var a := Nearest(|elig|, DistTo(g, elig, d.value), Except(d.value));
    r := Some((if a.Some? then a.value else p, d.value));
  }
}

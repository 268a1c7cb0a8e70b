/**
 * SettlementStrongPointComp: the strength of every settlement, seeded
 * with its base strength and grown once a day by a sigmoid share of it,
 * steeper for a stronger owner.
 */
module SettlementStrength {
  import opened Numeric
  import opened Settlements
  import opened World
  import opened StrongPoint

  /** The ticks between two growth passes: one in-game day. */
  const GrowthPeriod: int := 60000

  /** The TryGetValue read of GetCurrentSP: the stored strength, 0 for an untracked settlement. */
  function Current(sp: map<nat, real>, id: nat): real {
    if id in sp then sp[id] else 0.0
  }

  /** The seeding loop of FinalizeInit over the first `n` settlements: each entry set to the base strength. */
  function Seeded(sp: map<nat, real>, sites: seq<Site>, n: nat): map<nat, real>
    requires n <= |sites|
  {
    if n == 0 then sp
    else Seeded(sp, sites, n - 1)[sites[n - 1].id := BaseStrength(sites[n - 1].kind)]
  }

  /** Every stored strength is not negative. */
  ghost predicate NonNegative(sp: map<nat, real>) {
    forall id :: id in sp ==> sp[id] >= 0.0
  }

  /** The world-object ids of the first `n` settlements. */
  ghost function Ids(sites: seq<Site>, n: nat): set<nat>
    requires n <= |sites|
  {
    set j | 0 <= j < n :: sites[j].id
  }

  lemma IdsStep(sites: seq<Site>, n: nat)
    requires n < |sites|
    ensures Ids(sites, n + 1) == Ids(sites, n) + {sites[n].id}
  {
    forall x | x in Ids(sites, n + 1)
      ensures x in Ids(sites, n) + {sites[n].id}
    {
      var j :| 0 <= j < n + 1 && sites[j].id == x;
      if j < n {
        assert x in Ids(sites, n);
      }
    }
  }

  /**
   * After seeding, every settlement has an entry, and with distinct ids
   * that entry is its base strength; entries of ids not in the world are
   * kept.
   */
  lemma {:induction false} SeededMeaning(sp: map<nat, real>, sites: seq<Site>, n: nat)
    requires n <= |sites| && DistinctIds(sites)
    ensures Seeded(sp, sites, n).Keys == sp.Keys + Ids(sites, n)
    ensures forall j :: 0 <= j < n ==> Seeded(sp, sites, n)[sites[j].id] == BaseStrength(sites[j].kind)
    ensures forall id :: id in sp && id !in Ids(sites, n) ==> Seeded(sp, sites, n)[id] == sp[id]
    ensures NonNegative(sp) ==> NonNegative(Seeded(sp, sites, n))
  {
    if n > 0 {
      SeededMeaning(sp, sites, n - 1);
      IdsStep(sites, n - 1);
    }
  }

  /** The faction strength a settlement grows by: 0 for no owner. */
  function OwnerStrength(fsp: map<int, real>, s: Site): real {
    StrengthOf(fsp, s.faction)
  }

  /** A settlement takes part in a growth pass: it has an owner whose strength is positive. */
  predicate Grows(fsp: map<int, real>, s: Site) {
    s.faction.Some? && OwnerStrength(fsp, s) > 0.0
  }

  /**
   * One settlement's turn in the growth pass: cur + sigma(factionSP * cur) *
   * base, where `sigma` is the logistic 1 / (1 + e^-x).
   */
  function GrowOne(sp: map<nat, real>, s: Site, fsp: map<int, real>, sigma: real -> real): map<nat, real> {
    if !Grows(fsp, s) then sp
    else
      var cur := Current(sp, s.id);
      sp[s.id := cur + Gain(fsp, s, sigma, cur)]
  }

  /** The growth pass over the first `n` settlements, in list order. */
  function Grown(sp: map<nat, real>, sites: seq<Site>, fsp: map<int, real>, sigma: real -> real, n: nat): map<nat, real>
    requires n <= |sites|
  {
    if n == 0 then sp else GrowOne(Grown(sp, sites, fsp, sigma, n - 1), sites[n - 1], fsp, sigma)
  }

  /** The gain formula: the sigmoid of the owner's strength times the settlement's own, times its base. */
  function SigmoidGain(sigma: real -> real, factionSP: real, cur: real, baseSP: real): real {
    sigma(factionSP * cur) * baseSP
  }

  /** The gain of settlement `s` when its strength is `cur`. */
  function Gain(fsp: map<int, real>, s: Site, sigma: real -> real, cur: real): real {
    SigmoidGain(sigma, OwnerStrength(fsp, s), cur, BaseStrength(s.kind))
  }

  /**
   * A growing settlement with a non-negative strength gains at least half
   * and less than all of its base strength; from 0 (an untracked
   * settlement) it gains exactly half.
   */
  lemma GainBounds(fsp: map<int, real>, s: Site, sigma: real -> real, cur: real)
    requires IsSigmoid(sigma) && Grows(fsp, s) && cur >= 0.0
    ensures BaseStrength(s.kind) / 2.0 <= Gain(fsp, s, sigma, cur) < BaseStrength(s.kind)
    ensures cur == 0.0 ==> Gain(fsp, s, sigma, cur) == BaseStrength(s.kind) / 2.0
  {
    var f, b := OwnerStrength(fsp, s), BaseStrength(s.kind);
    ProductNonNegative(f, cur);
    SigmoidHalves(sigma, f * cur);
    var y := sigma(f * cur);
    ProductNonNegative(y - 0.5, b);
    ProductNonNegative(1.0 - y, b);
    assert (1.0 - y) * b != 0.0;
  }

  /** The ids of the first `n` settlements that grow. */
  ghost function GrowingIds(sites: seq<Site>, fsp: map<int, real>, n: nat): set<nat>
    requires n <= |sites|
  {
    set j | 0 <= j < n && Grows(fsp, sites[j]) :: sites[j].id
  }

  lemma GrowingIdsStep(sites: seq<Site>, fsp: map<int, real>, n: nat)
    requires n < |sites|
    ensures GrowingIds(sites, fsp, n + 1) == GrowingIds(sites, fsp, n) + (if Grows(fsp, sites[n]) then {sites[n].id} else {})
  {
    var l, r := GrowingIds(sites, fsp, n + 1), GrowingIds(sites, fsp, n) + (if Grows(fsp, sites[n]) then {sites[n].id} else {});
    forall x | x in l
      ensures x in r
    {
      var j :| 0 <= j < n + 1 && Grows(fsp, sites[j]) && sites[j].id == x;
      if j < n {
        assert x in GrowingIds(sites, fsp, n);
      }
    }
  }

  /** A growth pass adds an entry exactly for the settlements that grow. */
  lemma {:induction false} GrownKeys(sp: map<nat, real>, sites: seq<Site>, fsp: map<int, real>, sigma: real -> real, n: nat)
    requires n <= |sites|
    ensures Grown(sp, sites, fsp, sigma, n).Keys == sp.Keys + GrowingIds(sites, fsp, n)
  {
    if n > 0 {
      GrownKeys(sp, sites, fsp, sigma, n - 1);
      GrowingIdsStep(sites, fsp, n - 1);
    }
  }

  /**
   * A growth pass keeps every entry, never lowers a strength and keeps
   * strengths non-negative.
   */
  lemma {:induction false} GrownNeverLowers(sp: map<nat, real>, sites: seq<Site>, fsp: map<int, real>, sigma: real -> real, n: nat)
    requires n <= |sites| && IsSigmoid(sigma) && NonNegative(sp)
    ensures NonNegative(Grown(sp, sites, fsp, sigma, n))
    ensures forall id :: id in sp ==> id in Grown(sp, sites, fsp, sigma, n) && Grown(sp, sites, fsp, sigma, n)[id] >= sp[id]
  {
    if n > 0 {
      GrownNeverLowers(sp, sites, fsp, sigma, n - 1);
      var before := Grown(sp, sites, fsp, sigma, n - 1);
      var s := sites[n - 1];
      if Grows(fsp, s) {
        GainBounds(fsp, s, sigma, Current(before, s.id));
      }
    }
  }

  /** A settlement's turn leaves every other id's entry as it was. */
  lemma {:induction false} GrownElsewhere(sp: map<nat, real>, sites: seq<Site>, fsp: map<int, real>, sigma: real -> real,
                                          n: nat, id: nat)
    requires n <= |sites| && forall j :: 0 <= j < n ==> sites[j].id != id
    ensures Current(Grown(sp, sites, fsp, sigma, n), id) == Current(sp, id)
  {
    if n > 0 {
      GrownElsewhere(sp, sites, fsp, sigma, n - 1, id);
    }
  }

  /**
   * With distinct ids, the pass grows each settlement exactly once, from
   * the strength it had before the pass: the order of the list does not
   * matter, and a settlement that does not grow keeps its strength.
   */
  lemma {:induction false} GrownOnce(sp: map<nat, real>, sites: seq<Site>, fsp: map<int, real>, sigma: real -> real, n: nat)
    requires n <= |sites| && DistinctIds(sites)
    ensures forall j :: 0 <= j < n ==>
              Current(Grown(sp, sites, fsp, sigma, n), sites[j].id) ==
                (if Grows(fsp, sites[j])
                 then Current(sp, sites[j].id) + Gain(fsp, sites[j], sigma, Current(sp, sites[j].id))
                 else Current(sp, sites[j].id))
  {
    if n > 0 {
      GrownOnce(sp, sites, fsp, sigma, n - 1);
      var before := Grown(sp, sites, fsp, sigma, n - 1);
      var last := sites[n - 1];
      GrownElsewhere(sp, sites, fsp, sigma, n - 1, last.id);
      assert Grown(sp, sites, fsp, sigma, n) == GrowOne(before, last, fsp, sigma);
      forall j | 0 <= j < n - 1
        ensures Current(GrowOne(before, last, fsp, sigma), sites[j].id) == Current(before, sites[j].id)
      {
        assert sites[j].id != last.id;
      }
      assert Current(before, last.id) == Current(sp, last.id);
    }
  }

  /** The world component with its dictionary of settlement strengths and its day counter. */
  class SettlementStrongPoints {
    var settlementSP: map<nat, real>
    var tick: int

    constructor ()
      ensures settlementSP == map[] && tick == 0
    {
      settlementSP := map[];
      tick := 0;
    }

    /** GetCurrentSP, for the settlement with world-object id `id`: its stored strength, 0 when it has none. */
    function GetCurrentSP(id: nat): (r: real)
      reads this
      ensures id in settlementSP ==> r == settlementSP[id]
      ensures id !in settlementSP ==> r == 0.0
    {
      Current(settlementSP, id)
    }

    /** FinalizeInit: a loaded game keeps its dictionary; a new one seeds every settlement. */
    method FinalizeInit(fromLoad: bool, sites: seq<Site>)
      modifies this
      ensures tick == old(tick)
      ensures fromLoad ==> settlementSP == old(settlementSP)
      ensures !fromLoad ==> settlementSP == Seeded(old(settlementSP), sites, |sites|)
    {
      if fromLoad {
        return;
      }
      var i := 0;
      while i < |sites|
        invariant 0 <= i <= |sites| && tick == old(tick)
        invariant settlementSP == Seeded(old(settlementSP), sites, i)
      {
        settlementSP := settlementSP[sites[i].id := BaseStrength(sites[i].kind)];
        i := i + 1;
      }
    }

    /**
     * WorldComponentTick. On every GrowthPeriod-th tick the settlements
     * are grown, in list order, by the strength of their owners in
     * `factions`; `sigma` is the logistic function the source computes
     * with Mathf.Exp.
     */
    method Tick(sites: seq<Site>, factions: FactionStrength, sigma: real -> real) returns (grew: bool)
      modifies this
      ensures (tick, grew) == PeriodicStep(old(tick), GrowthPeriod)
      ensures !grew ==> settlementSP == old(settlementSP)
      ensures grew ==> settlementSP == Grown(old(settlementSP), sites, factions.factionStrongPoints, sigma, |sites|)
    {
      tick := tick + 1;
      if tick < GrowthPeriod {
        return false;
      }
      tick := 0;
      grew := true;
      GrowAll(sites, factions, sigma);
    }

    /** The loop of WorldComponentTick over the settlements of the world. */
    method GrowAll(sites: seq<Site>, factions: FactionStrength, sigma: real -> real)
      modifies this
      ensures tick == old(tick)
      ensures settlementSP == Grown(old(settlementSP), sites, factions.factionStrongPoints, sigma, |sites|)
    {
      ghost var start := settlementSP;
      ghost var fsp := factions.factionStrongPoints;
      var i := 0;
      while i < |sites|
        invariant 0 <= i <= |sites| && tick == old(tick)
        invariant settlementSP == Grown(start, sites, fsp, sigma, i)
      {
        var s := sites[i];
        assert Grown(start, sites, fsp, sigma, i + 1) == GrowOne(settlementSP, s, fsp, sigma);
        i := i + 1;
        if s.faction.None? {
          continue;
        }
        var baseSP := BaseStrength(s.kind);
        var factionSP := factions.GetFactionSP(s.faction);
        if factionSP <= 0.0 {
          continue;
        }
        var cur := GetCurrentSP(s.id);
        var gain := SigmoidGain(sigma, factionSP, cur, baseSP);
        settlementSP := settlementSP[s.id := cur + gain];
      }
    }
  }
}

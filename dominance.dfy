/**
 * EnforceLocalFactionDominance: a settlement changes hands when exactly
 * one foreign faction has settlements around it and outnumbers the
 * settlement's own faction there.
 */
module Dominance {
  import opened Wrappers
  import opened World

  /** The radius of the local count, in ApproxDistanceInTiles units. */
  const DominanceRadius: real := 20.0

  /** Settlement `j` takes part in the count around `i`: another, owned settlement within the radius. */
  predicate Counted(g: Graph, sites: seq<Site>, i: nat, j: nat)
    requires i < |sites| && j < |sites|
  {
    j != i && sites[j].faction.Some? && g.approx(sites[i].tile, sites[j].tile) <= DominanceRadius
  }

  /** How many of the first `n` settlements are counted around `i` and owned by `f`. */
  function CountNear(g: Graph, sites: seq<Site>, i: nat, f: Option<Faction>, n: nat): nat
    requires i < |sites| && n <= |sites|
  {
    if n == 0 then 0
    else CountNear(g, sites, i, f, n - 1) + (if Counted(g, sites, i, n - 1) && sites[n - 1].faction == f then 1 else 0)
  }

  /** The count is positive exactly when some counted settlement of `f` is among the first `n`. */
  lemma {:induction false} CountPositive(g: Graph, sites: seq<Site>, i: nat, f: Option<Faction>, n: nat)
    requires i < |sites| && n <= |sites|
    ensures CountNear(g, sites, i, f, n) > 0 <==>
              exists j :: 0 <= j < n && Counted(g, sites, i, j) && sites[j].faction == f
  {
    if n > 0 {
      CountPositive(g, sites, i, f, n - 1);
    }
  }

  /** The factions other than `i`'s own that own a counted settlement around `i`. */
  ghost function Foreign(g: Graph, sites: seq<Site>, i: nat): set<Faction>
    requires i < |sites|
  {
    set j | 0 <= j < |sites| && Counted(g, sites, i, j) && sites[j].faction != sites[i].faction
      :: sites[j].faction.value
  }

  /**
   * The faction settlement `i` passes to, if any: the one foreign faction
   * around it, when it is the only one and strictly outnumbers `i`'s
   * own faction there.
   */
  ghost function Verdict(g: Graph, sites: seq<Site>, i: nat): Option<Faction>
    requires i < |sites|
  {
    var foreign := Foreign(g, sites, i);
    if |foreign| != 1 then None
    else
      var b :| b in foreign;
      if CountNear(g, sites, i, Some(b), |sites|) > CountNear(g, sites, i, sites[i].faction, |sites|)
      then Some(b) else None
  }

  lemma Singleton<T>(s: set<T>, a: T)
    requires |s| == 1 && a in s
    ensures s == {a}
  {
    var rest := s - {a};
    assert s == rest + {a};
    assert |rest| == 0;
  }

  /**
   * The counting loop of EnforceLocalFactionDominance over the world's
   * settlements (`countA`, the `countOther` dictionary), followed by its
   * two early returns; the result is the faction to switch to.
   */
  method DominanceFlip(g: Graph, sites: seq<Site>, i: nat) returns (r: Option<Faction>)
    requires i < |sites|
    ensures r == Verdict(g, sites, i)
  {
    var facA := sites[i].faction;
    var countA := 0;
    var countOther: map<Faction, int> := map[];
    var j := 0;
    while j < |sites|
      invariant 0 <= j <= |sites|
      invariant countA == CountNear(g, sites, i, facA, j)
      invariant forall f :: f in countOther <==> Some(f) != facA && CountNear(g, sites, i, Some(f), j) > 0
      invariant forall f :: f in countOther ==> countOther[f] == CountNear(g, sites, i, Some(f), j)
    {
      var other := sites[j];
      if j != i && other.faction.Some? && g.approx(sites[i].tile, other.tile) <= DominanceRadius {
        if other.faction == facA {
          countA := countA + 1;
        } else {
          var f := other.faction.value;
          if f !in countOther {
            countOther := countOther[f := 0];
          }
          countOther := countOther[f := countOther[f] + 1];
        }
      }
      j := j + 1;
    }
    ForeignIsCounted(g, sites, i, countOther);
    if |countOther| != 1 {
      return None;
    }
    var facB :| facB in countOther;
    var countB := countOther[facB];
    var diff := countB - countA;
    Singleton(Foreign(g, sites, i), facB);
    if diff <= 0 {
      return None;
    }
    r := Some(facB);
  }

  /** The dictionary's keys after the loop are exactly the foreign factions. */
  lemma ForeignIsCounted(g: Graph, sites: seq<Site>, i: nat, counts: map<Faction, int>)
    requires i < |sites|
    requires forall f :: f in counts <==> Some(f) != sites[i].faction && CountNear(g, sites, i, Some(f), |sites|) > 0
    ensures counts.Keys == Foreign(g, sites, i)
  {
    forall f
      ensures f in counts <==> f in Foreign(g, sites, i)
    {
      CountPositive(g, sites, i, Some(f), |sites|);
      if f in Foreign(g, sites, i) {
        var j :| 0 <= j < |sites| && Counted(g, sites, i, j) && sites[j].faction != sites[i].faction
                 && sites[j].faction.value == f;
        assert sites[j].faction == Some(f);
      }
    }
  }

  /**
   * A verdict names a faction other than the settlement's own, the only
   * foreign one around it, with strictly more settlements there than the
   * own faction; with no verdict, either the foreign factions are not
   * exactly one or the own faction holds its ground.
   */
  lemma VerdictMeaning(g: Graph, sites: seq<Site>, i: nat)
    requires i < |sites|
    ensures var r := Verdict(g, sites, i);
            r.Some? ==> && Foreign(g, sites, i) == {r.value}
                        && Some(r.value) != sites[i].faction
                        && CountNear(g, sites, i, Some(r.value), |sites|) > CountNear(g, sites, i, sites[i].faction, |sites|)
    ensures Verdict(g, sites, i).None? <==>
              |Foreign(g, sites, i)| != 1
              || forall b :: b in Foreign(g, sites, i) ==>
                   CountNear(g, sites, i, Some(b), |sites|) <= CountNear(g, sites, i, sites[i].faction, |sites|)
  {
    var foreign := Foreign(g, sites, i);
    if |foreign| == 1 {
      var b :| b in foreign;
      Singleton(foreign, b);
      var j :| 0 <= j < |sites| && Counted(g, sites, i, j) && sites[j].faction != sites[i].faction
               && sites[j].faction.value == b;
    }
  }

  /** Counts do not see which ownerless settlement stands at a position other than `i`. */
  lemma {:induction false} CountIgnoresOwnerless(g: Graph, sites: seq<Site>, i: nat, j: nat, s: Site,
                                                 f: Option<Faction>, n: nat)
    requires i < |sites| && j < |sites| && j != i && n <= |sites|
    requires sites[j].faction.None? && s.faction.None?
    ensures CountNear(g, sites[j := s], i, f, n) == CountNear(g, sites, i, f, n)
  {
    if n > 0 {
      CountIgnoresOwnerless(g, sites, i, j, s, f, n - 1);
    }
  }

  /**
   * Ownerless settlements are not counted: replacing one (other than `i`
   * itself) by any other ownerless settlement, wherever it stands,
   * leaves the verdict unchanged.
   */
  lemma VerdictIgnoresOwnerless(g: Graph, sites: seq<Site>, i: nat, j: nat, s: Site)
    requires i < |sites| && j < |sites| && j != i
    requires sites[j].faction.None? && s.faction.None?
    ensures Verdict(g, sites[j := s], i) == Verdict(g, sites, i)
  {
    var sites' := sites[j := s];
    assert Foreign(g, sites', i) == Foreign(g, sites, i) by {
      forall f
        ensures f in Foreign(g, sites', i) <==> f in Foreign(g, sites, i)
      {
        if f in Foreign(g, sites', i) {
          var k :| 0 <= k < |sites'| && Counted(g, sites', i, k) && sites'[k].faction != sites'[i].faction
                   && sites'[k].faction.value == f;
          assert k != j;
          assert Counted(g, sites, i, k);
        }
        if f in Foreign(g, sites, i) {
          var k :| 0 <= k < |sites| && Counted(g, sites, i, k) && sites[k].faction != sites[i].faction
                   && sites[k].faction.value == f;
          assert k != j;
          assert Counted(g, sites', i, k);
        }
      }
    }
    forall f: Option<Faction>
      ensures CountNear(g, sites', i, f, |sites|) == CountNear(g, sites, i, f, |sites|)
    {
      CountIgnoresOwnerless(g, sites, i, j, s, f, |sites|);
    }
  }

  /**
   * The world-generation pass `foreach (var s in Settlements) if (s.Faction
   * != null) EnforceLocalFactionDominance(s)` over the first `n`
   * settlements, in order: each settlement is judged on the ownership left
   * by the settlements before it. `names(k)` is the new name of settlement
   * `k` if it changes hands.
   */
  ghost function DominancePass(g: Graph, sites: seq<Site>, names: nat -> string, n: nat): (r: seq<Site>)
    requires n <= |sites|
    ensures |r| == |sites|
  {
    if n == 0 then sites
    else
      var before := DominancePass(g, sites, names, n - 1);
      if before[n - 1].faction.Some? && Verdict(g, before, n - 1).Some?
      then before[n - 1 := before[n - 1].(faction := Verdict(g, before, n - 1), name := names(n - 1))]
      else before
  }

  /**
   * The pass keeps every settlement in place with its id, tile and class;
   * an owned settlement stays owned and an ownerless one stays
   * ownerless; settlements not yet reached are untouched.
   */
  lemma {:induction false} PassKeepsShape(g: Graph, sites: seq<Site>, names: nat -> string, n: nat)
    requires n <= |sites|
    ensures var r := DominancePass(g, sites, names, n);
            forall k :: 0 <= k < |sites| ==>
              && r[k].id == sites[k].id && r[k].tile == sites[k].tile && r[k].kind == sites[k].kind
              && (r[k].faction.Some? <==> sites[k].faction.Some?)
              && (k >= n ==> r[k] == sites[k])
  {
    if n > 0 {
      PassKeepsShape(g, sites, names, n - 1);
      var before := DominancePass(g, sites, names, n - 1);
      VerdictMeaning(g, before, n - 1);
    }
  }

  /** The pass, as the driver runs it on the registry. */
  method EnforceLocalDominance(g: Graph, reg: Registry, names: nat -> string)
    requires reg.Valid()
    modifies reg
    ensures reg.Valid() && reg.nextId == old(reg.nextId)
    ensures reg.sites == DominancePass(g, old(reg.sites), names, |old(reg.sites)|)
  {
    ghost var start := reg.sites;
    var i := 0;
    while i < |reg.sites|
      invariant reg.Valid() && reg.nextId == old(reg.nextId)
      invariant |reg.sites| == |start| && 0 <= i <= |start|
      invariant reg.sites == DominancePass(g, start, names, i)
    {
      if reg.sites[i].faction.Some? {
        var flip := DominanceFlip(g, reg.sites, i);
        if flip.Some? {
          reg.SetFactionAndName(i, flip, names(i));
        }
      }
      i := i + 1;
    }
  }
}

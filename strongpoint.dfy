/**
 * FactionStrongPointWorldComp: the strength of every faction, rebuilt from
 * the base strengths of the settlements it owns and then jittered once by
 * a random multiplier.
 */
module StrongPoint {
  import opened Wrappers
  import opened Settlements
  import opened World

  /** The settlement's owner is the faction with load id `fid`. */
  predicate OwnedBy(s: Site, fid: int) {
    s.faction.Some? && s.faction.value.id == fid
  }

  /** The sum of GetSettlementSP over the first `n` settlements owned by faction `fid`. */
  function OwnedSum(sites: seq<Site>, fid: int, n: nat): real
    requires n <= |sites|
  {
    if n == 0 then 0.0
    else OwnedSum(sites, fid, n - 1) + (if OwnedBy(sites[n - 1], fid) then BaseStrength(sites[n - 1].kind) else 0.0)
  }

  /**
   * A faction's sum is never negative, and it is positive exactly when the
   * faction owns one of the settlements.
   */
  lemma {:induction false} OwnedSumSign(sites: seq<Site>, fid: int, n: nat)
    requires n <= |sites|
    ensures OwnedSum(sites, fid, n) >= 0.0
    ensures OwnedSum(sites, fid, n) > 0.0 <==> exists j :: 0 <= j < n && OwnedBy(sites[j], fid)
  {
    if n > 0 {
      OwnedSumSign(sites, fid, n - 1);
    }
  }

  /**
   * Settlements of no faction, or of another faction, add nothing: a sum
   * over `sites` is the same when such a settlement is appended.
   */
  lemma OwnedSumIgnoresOthers(sites: seq<Site>, s: Site, fid: int)
    requires !OwnedBy(s, fid)
    ensures OwnedSum(sites + [s], fid, |sites| + 1) == OwnedSum(sites, fid, |sites|)
  {
    OwnedSumPrefix(sites, [s], fid, |sites|);
  }

  /** A sum over a prefix does not look past it. */
  lemma {:induction false} OwnedSumPrefix(sites: seq<Site>, more: seq<Site>, fid: int, n: nat)
    requires n <= |sites|
    ensures OwnedSum(sites + more, fid, n) == OwnedSum(sites, fid, n)
  {
    if n > 0 {
      OwnedSumPrefix(sites, more, fid, n - 1);
      assert (sites + more)[n - 1] == sites[n - 1];
    }
  }

  /** The load ids of the owners of the first `n` settlements. */
  ghost function OwnerIds(sites: seq<Site>, n: nat): set<int>
    requires n <= |sites|
  {
    set j | 0 <= j < n && sites[j].faction.Some? :: sites[j].faction.value.id
  }

  lemma OwnerIdsStep(sites: seq<Site>, n: nat)
    requires n < |sites|
    ensures OwnerIds(sites, n + 1) == OwnerIds(sites, n) + (if sites[n].faction.Some? then {sites[n].faction.value.id} else {})
  {
    var l, r := OwnerIds(sites, n + 1), OwnerIds(sites, n) + (if sites[n].faction.Some? then {sites[n].faction.value.id} else {});
    forall x | x in l
      ensures x in r
    {
      var j :| 0 <= j < n + 1 && sites[j].faction.Some? && sites[j].faction.value.id == x;
      if j < n {
        assert x in OwnerIds(sites, n);
      }
    }
  }

  /** Faction `fid` owns none of the first `n` settlements when it is not among their owners. */
  lemma {:induction false} NotAnOwner(sites: seq<Site>, fid: int, n: nat)
    requires n <= |sites| && fid !in OwnerIds(sites, n)
    ensures OwnedSum(sites, fid, n) == 0.0
  {
    if n > 0 {
      OwnerIdsStep(sites, n - 1);
      NotAnOwner(sites, fid, n - 1);
    }
  }

  /** The load ids of the factions in the faction manager's list. */
  ghost function FactionIds(fs: seq<Faction>): set<int> {
    set f | f in fs :: f.id
  }

  /** The first loop of RecalculateAll: the owned sums of every faction that owns a settlement. */
  method SumOwned(sites: seq<Site>) returns (m: map<int, real>)
    ensures m.Keys == OwnerIds(sites, |sites|)
    ensures forall k :: k in m ==> m[k] == OwnedSum(sites, k, |sites|)
  {
    m := map[];
    var i := 0;
    while i < |sites|
      invariant 0 <= i <= |sites|
      invariant m.Keys == OwnerIds(sites, i)
      invariant forall k :: k in m ==> m[k] == OwnedSum(sites, k, i)
    {
      OwnerIdsStep(sites, i);
      var s := sites[i];
      if s.faction.Some? {
        var sp := BaseStrength(s.kind);
        var id := s.faction.value.id;
        if id in m {
          m := m[id := m[id] + sp];
        } else {
          NotAnOwner(sites, id, i);
          m := m[id := sp];
        }
      }
      i := i + 1;
    }
  }

  /** The second loop: an entry of 0 for every listed faction that has none. */
  method AddListed(sites: seq<Site>, owned: map<int, real>, fs: seq<Faction>) returns (m: map<int, real>)
    requires owned.Keys == OwnerIds(sites, |sites|)
    requires forall k :: k in owned ==> owned[k] == OwnedSum(sites, k, |sites|)
    ensures m.Keys == OwnerIds(sites, |sites|) + FactionIds(fs)
    ensures forall k :: k in m ==> m[k] == OwnedSum(sites, k, |sites|)
  {
    m := owned;
    var j := 0;
    while j < |fs|
      invariant 0 <= j <= |fs|
      invariant m.Keys == owned.Keys + FactionIds(fs[..j])
      invariant forall k :: k in m ==> m[k] == OwnedSum(sites, k, |sites|)
    {
      assert fs[..j + 1] == fs[..j] + [fs[j]];
      var id := fs[j].id;
      if id !in m {
        NotAnOwner(sites, id, |sites|);
        m := m[id := 0.0];
      }
      j := j + 1;
    }
    assert fs[..|fs|] == fs;
  }

  /** An entry after its multiplication by a draw. */
  function Scale(x: real, mult: real): real {
    x * mult
  }

  /** Some key of a dictionary's key set, the one its enumeration yields next. */
  method PickKey(keys: set<int>) returns (k: int)
    requires keys != {}
    ensures k in keys
  {
    // a key set with no member would be the empty set, which the precondition excludes
    if forall x :: x !in keys {
      assert false;
    }
    k :| k in keys;
  }

  /** The third loop: every entry multiplied once by its own draw, in whatever order the keys come. */
  method Jitter(base: map<int, real>, mults: int -> real) returns (m: map<int, real>)
    ensures m.Keys == base.Keys
    ensures forall k :: k in m ==> m[k] == Scale(base[k], mults(k))
  {
    m := base;
    var keys := base.Keys;
    while keys != {}
      invariant keys <= base.Keys && m.Keys == base.Keys
      invariant forall k :: k in base ==> m[k] == if k in keys then base[k] else Scale(base[k], mults(k))
      decreases keys
    {
      var k := PickKey(keys);
      var mult := mults(k);
      m := m[k := Scale(m[k], mult)];
      keys := keys - {k};
    }
  }

  /** The TryGetValue read of GetFactionSP on the dictionary `m`. */
  function StrengthOf(m: map<int, real>, f: Option<Faction>): real {
    if f.None? then 0.0
    else if f.value.id in m then m[f.value.id]
    else 0.0
  }

  /** The world component with its dictionary of faction strengths, keyed by faction load id. */
  class FactionStrength {
    var factionStrongPoints: map<int, real>

    constructor ()
      ensures factionStrongPoints == map[]
    {
      factionStrongPoints := map[];
    }

    /**
     * RecalculateAll, for the settlement list `sites` and the faction list
     * `fs`; `mults(id)` is the Rand.Range(0.8, 1.2) multiplier drawn for
     * the entry of faction `id`. The dictionary is rebuilt from scratch:
     * one entry for every owner of a settlement and every listed faction
     * (hidden and player factions included), each the faction's owned sum
     * times its own multiplier.
     */
    method RecalculateAll(sites: seq<Site>, fs: seq<Faction>, mults: int -> real)
      requires forall k :: 0.8 <= mults(k) <= 1.2
      modifies this
      ensures factionStrongPoints.Keys == OwnerIds(sites, |sites|) + FactionIds(fs)
      ensures forall k :: k in factionStrongPoints ==> factionStrongPoints[k] == Scale(OwnedSum(sites, k, |sites|), mults(k))
    {
      var owned := SumOwned(sites);
      var listed := AddListed(sites, owned, fs);
      factionStrongPoints := Jitter(listed, mults);
      forall k | k in factionStrongPoints
        ensures factionStrongPoints[k] == Scale(OwnedSum(sites, k, |sites|), mults(k))
      {
        var sum := listed[k];
        assert sum == OwnedSum(sites, k, |sites|);
        assert factionStrongPoints[k] == Scale(sum, mults(k));
      }
    }

    /** GetFactionSP: 0 for no faction and for a faction without an entry. */
    function GetFactionSP(f: Option<Faction>): (r: real)
      reads this
      ensures f.None? ==> r == 0.0
      ensures f.Some? && f.value.id !in factionStrongPoints ==> r == 0.0
      ensures f.Some? && f.value.id in factionStrongPoints ==> r == factionStrongPoints[f.value.id]
    {
      StrengthOf(factionStrongPoints, f)
    }

    /** FinalizeInit: the rebuild runs on a fresh world and on a loaded one alike. */
    method FinalizeInit(fromLoad: bool, sites: seq<Site>, fs: seq<Faction>, mults: int -> real)
      requires forall k :: 0.8 <= mults(k) <= 1.2
      modifies this
      ensures factionStrongPoints.Keys == OwnerIds(sites, |sites|) + FactionIds(fs)
      ensures forall k :: k in factionStrongPoints ==> factionStrongPoints[k] == Scale(OwnedSum(sites, k, |sites|), mults(k))
    {
      RecalculateAll(sites, fs, mults);
    }
  }

  /**
   * After a rebuild, each entry lies between 0.8 and 1.2 times the
   * faction's owned sum, so it is never negative; a faction owning no
   * settlement has 0.
   */
  lemma JitteredBounds(sites: seq<Site>, fid: int, mult: real)
    requires 0.8 <= mult <= 1.2
    ensures 0.8 * OwnedSum(sites, fid, |sites|) <= Scale(OwnedSum(sites, fid, |sites|), mult)
    ensures Scale(OwnedSum(sites, fid, |sites|), mult) <= 1.2 * OwnedSum(sites, fid, |sites|)
    ensures Scale(OwnedSum(sites, fid, |sites|), mult) >= 0.0
    ensures (forall j :: 0 <= j < |sites| ==> !OwnedBy(sites[j], fid)) ==> Scale(OwnedSum(sites, fid, |sites|), mult) == 0.0
  {
    OwnedSumSign(sites, fid, |sites|);
    var sum := OwnedSum(sites, fid, |sites|);
    assert Scale(sum, mult) - 0.8 * sum == sum * (mult - 0.8);
    assert 1.2 * sum - Scale(sum, mult) == sum * (1.2 - mult);
    ProductNonNegative(sum, mult - 0.8);
    ProductNonNegative(sum, 1.2 - mult);
  }

  lemma ProductNonNegative(a: real, b: real)
    requires a >= 0.0 && b >= 0.0
    ensures a * b >= 0.0
  {
  }

}

/**
 * DynamicFactionGoodwill: a one-off random offset to the goodwill of every
 * pair of AI factions at world creation, then a monthly random step biased
 * by the current goodwill. The offsets it has applied are kept per
 * unordered pair of faction load ids.
 */
module Goodwill {
  import opened Wrappers
  import opened Numeric
  import opened World

  /** PairKey: an unordered pair of faction load ids, stored smaller first. */
  datatype PairKey = PairKey(a: int, b: int)

  /** PairKey.Of. */
  function Of(id1: int, id2: int): (k: PairKey)
    ensures k.a <= k.b
    ensures (k.a == id1 && k.b == id2) || (k.a == id2 && k.b == id1)
  {
    if id1 < id2 then PairKey(id1, id2) else PairKey(id2, id1)
  }

  /** The key does not depend on the order of the two ids. */
  lemma OfSymmetric(x: int, y: int)
    ensures Of(x, y) == Of(y, x)
  {
  }

  /** Two keys are equal only for the same two ids, in either order. */
  lemma OfInjective(x1: int, y1: int, x2: int, y2: int)
    requires Of(x1, y1) == Of(x2, y2)
    ensures (x1 == x2 && y1 == y2) || (x1 == y2 && y1 == x2)
  {
  }

  /** PairKey.Equals: componentwise, hence the same as equality of the keys. */
  function Equals(k: PairKey, other: PairKey): (r: bool)
    ensures r <==> k == other
  {
    k.a == other.a && k.b == other.b
  }

  /** A C# `int` as 32 bits (two's complement). */
  function ToBits(x: int): bv32 {
    (x % 0x1_0000_0000) as bv32
  }

  /** 32 bits read back as a C# `int`. */
  function FromBits(b: bv32): (r: int)
    ensures -0x8000_0000 <= r < 0x8000_0000
  {
    if b as int >= 0x8000_0000 then b as int - 0x1_0000_0000 else b as int
  }

  /** PairKey.GetHashCode: (A * 397) ^ B in wrapping 32-bit arithmetic. */
  function HashCode(k: PairKey): (h: int)
    ensures -0x8000_0000 <= h < 0x8000_0000
  {
    FromBits(ToBits(k.a * 397) ^ ToBits(k.b))
  }

  /** Keys that Equals accepts have the same hash. */
  lemma EqualKeysEqualHashes(k: PairKey, other: PairKey)
    requires Equals(k, other)
    ensures HashCode(k) == HashCode(other)
  {
  }

  /** The chance of a positive monthly step: (goodwill + magnitude) / 40 clamped to [0.1, 0.9]. */
  function PositiveChance(goodwillNow: int, magnitude: int): (c: real)
    ensures 0.1 <= c <= 0.9
  {
    ClampReal((goodwillNow + magnitude) as real / 40.0, 0.1, 0.9)
  }

  /**
   * BiasedDelta, with `magnitude` the draw of Rand.RangeInclusive(1, 4)
   * and `draw` the draw of Rand.Value.
   */
  function BiasedDelta(goodwillNow: int, magnitude: int, draw: real): (r: int)
    requires 1 <= magnitude <= 4
    ensures r == magnitude || r == -magnitude
    ensures r != 0 && -4 <= r <= 4
    ensures r > 0 <==> draw < PositiveChance(goodwillNow, magnitude)
  {
    if draw < PositiveChance(goodwillNow, magnitude) then magnitude else -magnitude
  }

  /**
   * The bias: with the same draws, a higher goodwill never turns a
   * positive step negative.
   */
  lemma BiasIsMonotone(g1: int, g2: int, magnitude: int, draw: real)
    requires 1 <= magnitude <= 4 && g1 <= g2
    ensures BiasedDelta(g1, magnitude, draw) > 0 ==> BiasedDelta(g2, magnitude, draw) > 0
  {
    assert (g1 + magnitude) as real / 40.0 <= (g2 + magnitude) as real / 40.0;
  }

  /**
   * Whatever the goodwill, a draw below 0.1 always steps up and a draw of
   * 0.9 or more always steps down; from goodwill 36 on the chance is
   * 0.9, up to goodwill 0 it is 0.1.
   */
  lemma BiasLimits(goodwillNow: int, magnitude: int, draw: real)
    requires 1 <= magnitude <= 4
    ensures draw < 0.1 ==> BiasedDelta(goodwillNow, magnitude, draw) == magnitude
    ensures draw >= 0.9 ==> BiasedDelta(goodwillNow, magnitude, draw) == -magnitude
    ensures goodwillNow >= 36 ==> PositiveChance(goodwillNow, magnitude) == 0.9
    ensures goodwillNow <= 0 ==> PositiveChance(goodwillNow, magnitude) == 0.1
  {
  }

  /**
   * The delta of the initial pass for a pair at goodwill `cur` and drawn
   * offset `offset`: Clamp(cur + offset, -100, 100) - cur.
   */
  function InitialDelta(cur: int, offset: int): (d: int)
    ensures -100 <= cur <= 100 ==> -100 <= cur + d <= 100
  {
    ClampInt(cur + offset, -100, 100) - cur
  }

  /**
   * An offset drawn from [-20, 20] moves a pair by at most 20, in the
   * direction of the offset and by no more than it, and keeps it within
   * [-100, 100] (so the host's own clamp changes nothing); the delta is 0
   * exactly when the offset is 0 or pushes against the bound the pair
   * already stands at.
   */
  lemma InitialDeltaBounds(cur: int, offset: int)
    requires -100 <= cur <= 100 && -20 <= offset <= 20
    ensures -20 <= InitialDelta(cur, offset) <= 20
    ensures if offset >= 0 then 0 <= InitialDelta(cur, offset) <= offset else offset <= InitialDelta(cur, offset) <= 0
    ensures InitialDelta(cur, offset) == 0 <==> offset == 0 || (cur == 100 && offset > 0) || (cur == -100 && offset < 0)
    ensures ClampInt(cur + InitialDelta(cur, offset), -100, 100) == cur + InitialDelta(cur, offset)
  {
  }

  /** A dictionary read that yields 0 for a missing key (TryGetValue's default). */
  function Get(m: map<PairKey, int>, k: PairKey): int {
    if k in m then m[k] else 0
  }

  /** A dictionary read that tells a missing key apart. */
  function Lookup(m: map<PairKey, int>, k: PairKey): Option<int> {
    if k in m then Some(m[k]) else None
  }

  /**
   * The host's goodwill relation: symmetric, so stored per PairKey, within
   * [-100, 100]; a pair not in the map stands at 0. `accepts(key, delta)`
   * is the host's own test (Faction.CanChangeGoodwillFor) of whether a
   * change of `delta` to that pair is allowed at all.
   */
  class Relations {
    var goodwill: map<PairKey, int>
    const accepts: (PairKey, int) -> bool

    ghost predicate Valid()
      reads this
    {
      forall k :: k in goodwill ==> -100 <= goodwill[k] <= 100
    }

    constructor (accepts: (PairKey, int) -> bool)
      ensures Valid() && goodwill == map[] && this.accepts == accepts
    {
      goodwill := map[];
      this.accepts := accepts;
    }

    /** Faction.GoodwillWith. */
    function GoodwillWith(a: Faction, b: Faction): (r: int)
      reads this
      ensures Valid() ==> -100 <= r <= 100
    {
      Get(goodwill, Of(a.id, b.id))
    }

    /**
     * Faction.TryAffectGoodwillWith: a change the host refuses leaves the
     * goodwill as it was and reports false; an accepted one is applied,
     * clamped to [-100, 100].
     */
    method TryAffectGoodwillWith(a: Faction, b: Faction, delta: int) returns (ok: bool)
      requires Valid()
      modifies this
      ensures Valid()
      ensures ok == accepts(Of(a.id, b.id), delta)
      ensures ok ==> goodwill == old(goodwill)[Of(a.id, b.id) := ClampInt(old(GoodwillWith(a, b)) + delta, -100, 100)]
      ensures !ok ==> goodwill == old(goodwill)
    {
      ok := accepts(Of(a.id, b.id), delta);
      if ok {
        goodwill := goodwill[Of(a.id, b.id) := ClampInt(GoodwillWith(a, b) + delta, -100, 100)];
      }
    }
  }

  /** The factions the two passes pair up: neither the player's nor hidden. */
  predicate Eligible(f: Faction) {
    !f.isPlayer && !f.hidden
  }

  /** The faction manager's list holds each load id once. */
  ghost predicate DistinctFactionIds(fs: seq<Faction>) {
    forall i, j :: 0 <= i < j < |fs| ==> fs[i].id != fs[j].id
  }

  function Key(fs: seq<Faction>, p: nat, q: nat): PairKey
    requires p < |fs| && q < |fs|
  {
    Of(fs[p].id, fs[q].id)
  }

  /** The keys of all the pairs the two passes visit. */
  ghost function PairKeys(fs: seq<Faction>): set<PairKey> {
    set p, q | 0 <= p < q < |fs| && Eligible(fs[p]) && Eligible(fs[q]) :: Key(fs, p, q)
  }

  /** With distinct load ids, each visited pair has its own key. */
  lemma KeysAreDistinct(fs: seq<Faction>, p: nat, q: nat, p': nat, q': nat)
    requires DistinctFactionIds(fs)
    requires p < q < |fs| && p' < q' < |fs|
    ensures Key(fs, p, q) == Key(fs, p', q') <==> p == p' && q == q'
  {
    if Key(fs, p, q) == Key(fs, p', q') {
      OfInjective(fs[p].id, fs[q].id, fs[p'].id, fs[q'].id);
    }
  }

  /**
   * The player faction and hidden factions are never paired: no key
   * holding their load id is visited.
   */
  lemma IneligibleNeverPaired(fs: seq<Faction>, p: nat, other: int)
    requires DistinctFactionIds(fs) && p < |fs| && !Eligible(fs[p])
    ensures Of(fs[p].id, other) !in PairKeys(fs)
  {
    if Of(fs[p].id, other) in PairKeys(fs) {
      var x, y :| 0 <= x < y < |fs| && Eligible(fs[x]) && Eligible(fs[y]) && Key(fs, x, y) == Of(fs[p].id, other);
    }
  }

  /** Pair (p, q) comes before position (i, j) of the nested loops. */
  predicate Before(p: nat, q: nat, i: nat, j: nat) {
    p < i || (p == i && q < j)
  }

  /** Only the keys of visited pairs have changed. */
  ghost predicate OthersKept(fs: seq<Faction>, gw0: map<PairKey, int>, off0: map<PairKey, int>,
                             gw: map<PairKey, int>, off: map<PairKey, int>) {
    forall k :: k !in PairKeys(fs) ==> Lookup(gw, k) == Lookup(gw0, k) && Lookup(off, k) == Lookup(off0, k)
  }

  lemma KeyIsPaired(fs: seq<Faction>, p: nat, q: nat)
    requires p < q < |fs| && Eligible(fs[p]) && Eligible(fs[q])
    ensures Key(fs, p, q) in PairKeys(fs)
  {
  }

  /** Updating a visited pair's key keeps OthersKept. */
  lemma OthersKeptStep(fs: seq<Faction>, gw0: map<PairKey, int>, off0: map<PairKey, int>,
                       gw: map<PairKey, int>, off: map<PairKey, int>, p: nat, q: nat, g: Option<int>, o: Option<int>)
    requires OthersKept(fs, gw0, off0, gw, off)
    requires p < q < |fs| && Eligible(fs[p]) && Eligible(fs[q])
    ensures OthersKept(fs, gw0, off0, if g.Some? then gw[Key(fs, p, q) := g.value] else gw,
                       if o.Some? then off[Key(fs, p, q) := o.value] else off)
  {
    KeyIsPaired(fs, p, q);
  }

  /** A pair the nested loops have not reached yet: its goodwill and its record are as they were. */
  ghost predicate Pending(gw0: map<PairKey, int>, off0: map<PairKey, int>,
                          gw: map<PairKey, int>, off: map<PairKey, int>, key: PairKey) {
    Lookup(gw, key) == Lookup(gw0, key) && Lookup(off, key) == Lookup(off0, key)
  }

  /**
   * A pair the initial pass has handled: it stands at its clamped target
   * (at its start when the host refused the change) and, unless its delta
   * was 0, records exactly that delta whether or not the host accepted it.
   */
  ghost predicate OffsetApplied(accepts: (PairKey, int) -> bool, gw0: map<PairKey, int>, off0: map<PairKey, int>,
                                gw: map<PairKey, int>, off: map<PairKey, int>, key: PairKey, offset: int) {
    var delta := InitialDelta(Get(gw0, key), offset);
    && Get(gw, key) == (if accepts(key, delta) then Get(gw0, key) + delta else Get(gw0, key))
    && Lookup(off, key) == (if delta == 0 then Lookup(off0, key) else Some(delta))
  }

  /** What the initial pass has done once the nested loops reach (i, j). */
  ghost predicate InitialDone(accepts: (PairKey, int) -> bool, fs: seq<Faction>, offsets: (nat, nat) -> int, gw0: map<PairKey, int>,
                              off0: map<PairKey, int>, gw: map<PairKey, int>, off: map<PairKey, int>,
                              i: nat, j: nat) {
    forall p, q {:trigger Key(fs, p, q)} :: 0 <= p < q < |fs| && Eligible(fs[p]) && Eligible(fs[q]) ==>
      if Before(p, q, i, j) then OffsetApplied(accepts, gw0, off0, gw, off, Key(fs, p, q), offsets(p, q))
      else Pending(gw0, off0, gw, off, Key(fs, p, q))
  }

  /** A pair whose entries a step leaves alone keeps what the initial pass says about it. */
  lemma UntouchedInitial(accepts: (PairKey, int) -> bool, gw0: map<PairKey, int>, off0: map<PairKey, int>,
                         gw: map<PairKey, int>, off: map<PairKey, int>, gw': map<PairKey, int>, off': map<PairKey, int>,
                         key: PairKey, offset: int)
    requires Lookup(gw', key) == Lookup(gw, key) && Lookup(off', key) == Lookup(off, key)
    ensures OffsetApplied(accepts, gw0, off0, gw', off', key, offset) == OffsetApplied(accepts, gw0, off0, gw, off, key, offset)
    ensures Pending(gw0, off0, gw', off', key) == Pending(gw0, off0, gw, off, key)
  {
    assert Get(gw', key) == Get(gw, key);
  }

  /** A pair whose entries a step leaves alone keeps what the monthly shift says about it. */
  lemma UntouchedShift(accepts: (PairKey, int) -> bool, gw0: map<PairKey, int>, off0: map<PairKey, int>,
                       gw: map<PairKey, int>, off: map<PairKey, int>, gw': map<PairKey, int>, off': map<PairKey, int>,
                       key: PairKey, magnitude: int, draw: real)
    requires 1 <= magnitude <= 4
    requires Lookup(gw', key) == Lookup(gw, key) && Lookup(off', key) == Lookup(off, key)
    ensures StepApplied(accepts, gw0, off0, gw', off', key, magnitude, draw)
            == StepApplied(accepts, gw0, off0, gw, off, key, magnitude, draw)
    ensures Pending(gw0, off0, gw', off', key) == Pending(gw0, off0, gw, off, key)
  {
    assert Get(gw', key) == Get(gw, key);
  }

  /**
   * One pair of the initial pass: the goodwill it reads is the one the
   * pass started from, and the update it makes (none for a zero delta)
   * moves the loops on by one pair.
   */
  lemma InitialStep(accepts: (PairKey, int) -> bool, fs: seq<Faction>, offsets: (nat, nat) -> int, gw0: map<PairKey, int>,
                    off0: map<PairKey, int>, gw: map<PairKey, int>, off: map<PairKey, int>, i: nat, j: nat)
    returns (gw': map<PairKey, int>, off': map<PairKey, int>)
    requires DistinctFactionIds(fs) && i < j < |fs| && Eligible(fs[i]) && Eligible(fs[j])
    requires InitialDone(accepts, fs, offsets, gw0, off0, gw, off, i, j)
    ensures var key := Key(fs, i, j);
            var delta := InitialDelta(Get(gw, key), offsets(i, j));
            && Get(gw, key) == Get(gw0, key)
            && gw' == (if delta == 0 || !accepts(key, delta) then gw else gw[key := Get(gw, key) + delta])
            && off' == (if delta == 0 then off else off[key := delta])
    ensures InitialDone(accepts, fs, offsets, gw0, off0, gw', off', i, j + 1)
  {
    var key := Key(fs, i, j);
    assert Pending(gw0, off0, gw, off, key);
    var delta := InitialDelta(Get(gw, key), offsets(i, j));
    gw' := if delta == 0 || !accepts(key, delta) then gw else gw[key := Get(gw, key) + delta];
    off' := if delta == 0 then off else off[key := delta];
    forall p, q | 0 <= p < q < |fs| && Eligible(fs[p]) && Eligible(fs[q])
      ensures if Before(p, q, i, j + 1) then OffsetApplied(accepts, gw0, off0, gw', off', Key(fs, p, q), offsets(p, q))
              else Pending(gw0, off0, gw', off', Key(fs, p, q))
    {
      if p != i || q != j {
        KeysAreDistinct(fs, p, q, i, j);
        var k := Key(fs, p, q);
        assert Lookup(gw', k) == Lookup(gw, k) && Lookup(off', k) == Lookup(off, k);
        UntouchedInitial(accepts, gw0, off0, gw, off, gw', off', k, offsets(p, q));
      } else {
        InitialHere(accepts, gw0, off0, gw, off, key, offsets(i, j));
      }
    }
  }

  /** The pair the initial pass is at, still pending, is applied by the step's update. */
  lemma InitialHere(accepts: (PairKey, int) -> bool, gw0: map<PairKey, int>, off0: map<PairKey, int>,
                    gw: map<PairKey, int>, off: map<PairKey, int>, key: PairKey, offset: int)
    requires Pending(gw0, off0, gw, off, key)
    ensures var delta := InitialDelta(Get(gw, key), offset);
            OffsetApplied(accepts, gw0, off0,
                          if delta == 0 || !accepts(key, delta) then gw else gw[key := Get(gw, key) + delta],
                          if delta == 0 then off else off[key := delta], key, offset)
  {
    assert Get(gw, key) == Get(gw0, key);
  }

  /** A pair with an ineligible member is passed over. */
  lemma InitialSkip(accepts: (PairKey, int) -> bool, fs: seq<Faction>, offsets: (nat, nat) -> int, gw0: map<PairKey, int>,
                    off0: map<PairKey, int>, gw: map<PairKey, int>, off: map<PairKey, int>, i: nat, j: nat)
    requires i < |fs| && j < |fs| && (!Eligible(fs[i]) || !Eligible(fs[j]))
    requires InitialDone(accepts, fs, offsets, gw0, off0, gw, off, i, j)
    ensures InitialDone(accepts, fs, offsets, gw0, off0, gw, off, i, j + 1)
  {
    forall p, q | 0 <= p < q < |fs| && Eligible(fs[p]) && Eligible(fs[q])
      ensures Before(p, q, i, j + 1) == Before(p, q, i, j)
    {
    }
  }

  /** The end of a row of the nested loops is the start of the next. */
  lemma InitialRow(accepts: (PairKey, int) -> bool, fs: seq<Faction>, offsets: (nat, nat) -> int, gw0: map<PairKey, int>,
                   off0: map<PairKey, int>, gw: map<PairKey, int>, off: map<PairKey, int>, i: nat, j: nat)
    requires j >= |fs| && InitialDone(accepts, fs, offsets, gw0, off0, gw, off, i, j)
    ensures InitialDone(accepts, fs, offsets, gw0, off0, gw, off, i + 1, i + 2)
  {
    forall p, q | 0 <= p < q < |fs| && Eligible(fs[p]) && Eligible(fs[q])
      ensures Before(p, q, i + 1, i + 2) == Before(p, q, i, j)
    {
    }
  }

  /**
   * A pair the monthly shift has handled: it moved by its biased step
   * (clamped by the host, and not at all when the host refused it) and
   * its record grew by exactly the step requested, from 0 when there was
   * none.
   */
  ghost predicate StepApplied(accepts: (PairKey, int) -> bool, gw0: map<PairKey, int>, off0: map<PairKey, int>,
                              gw: map<PairKey, int>, off: map<PairKey, int>, key: PairKey, magnitude: int, draw: real)
    requires 1 <= magnitude <= 4
  {
    var delta := BiasedDelta(Get(gw0, key), magnitude, draw);
    && Get(gw, key) == (if accepts(key, delta) then ClampInt(Get(gw0, key) + delta, -100, 100) else Get(gw0, key))
    && Lookup(off, key) == Some(Get(off0, key) + delta)
  }

  /** What the monthly shift has done once the nested loops reach (i, j). */
  ghost predicate ShiftDone(accepts: (PairKey, int) -> bool, fs: seq<Faction>, magnitudes: (nat, nat) -> int, draws: (nat, nat) -> real,
                            gw0: map<PairKey, int>, off0: map<PairKey, int>,
                            gw: map<PairKey, int>, off: map<PairKey, int>, i: nat, j: nat)
    requires forall p, q :: 1 <= magnitudes(p, q) <= 4
  {
    forall p, q {:trigger Key(fs, p, q)} :: 0 <= p < q < |fs| && Eligible(fs[p]) && Eligible(fs[q]) ==>
      if Before(p, q, i, j) then StepApplied(accepts, gw0, off0, gw, off, Key(fs, p, q), magnitudes(p, q), draws(p, q))
      else Pending(gw0, off0, gw, off, Key(fs, p, q))
  }

  /** One pair of the monthly shift. */
  lemma ShiftStep(accepts: (PairKey, int) -> bool, fs: seq<Faction>, magnitudes: (nat, nat) -> int, draws: (nat, nat) -> real,
                  gw0: map<PairKey, int>, off0: map<PairKey, int>,
                  gw: map<PairKey, int>, off: map<PairKey, int>, i: nat, j: nat)
    returns (gw': map<PairKey, int>, off': map<PairKey, int>)
    requires forall p, q :: 1 <= magnitudes(p, q) <= 4
    requires DistinctFactionIds(fs) && i < j < |fs| && Eligible(fs[i]) && Eligible(fs[j])
    requires ShiftDone(accepts, fs, magnitudes, draws, gw0, off0, gw, off, i, j)
    ensures var key := Key(fs, i, j);
            var delta := BiasedDelta(Get(gw, key), magnitudes(i, j), draws(i, j));
            && Get(gw, key) == Get(gw0, key) && Get(off, key) == Get(off0, key)
            && gw' == (if accepts(key, delta) then gw[key := ClampInt(Get(gw, key) + delta, -100, 100)] else gw)
            && off' == off[key := Get(off, key) + delta]
    ensures ShiftDone(accepts, fs, magnitudes, draws, gw0, off0, gw', off', i, j + 1)
  {
    var key := Key(fs, i, j);
    assert Pending(gw0, off0, gw, off, key);
    var delta := BiasedDelta(Get(gw, key), magnitudes(i, j), draws(i, j));
    gw' := if accepts(key, delta) then gw[key := ClampInt(Get(gw, key) + delta, -100, 100)] else gw;
    off' := off[key := Get(off, key) + delta];
    forall p, q | 0 <= p < q < |fs| && Eligible(fs[p]) && Eligible(fs[q])
      ensures if Before(p, q, i, j + 1) then StepApplied(accepts, gw0, off0, gw', off', Key(fs, p, q), magnitudes(p, q), draws(p, q))
              else Pending(gw0, off0, gw', off', Key(fs, p, q))
    {
      if p != i || q != j {
        KeysAreDistinct(fs, p, q, i, j);
        var k := Key(fs, p, q);
        assert Lookup(gw', k) == Lookup(gw, k) && Lookup(off', k) == Lookup(off, k);
        UntouchedShift(accepts, gw0, off0, gw, off, gw', off', k, magnitudes(p, q), draws(p, q));
      }
    }
  }

  lemma ShiftSkip(accepts: (PairKey, int) -> bool, fs: seq<Faction>, magnitudes: (nat, nat) -> int, draws: (nat, nat) -> real,
                  gw0: map<PairKey, int>, off0: map<PairKey, int>,
                  gw: map<PairKey, int>, off: map<PairKey, int>, i: nat, j: nat)
    requires forall p, q :: 1 <= magnitudes(p, q) <= 4
    requires i < |fs| && j < |fs| && (!Eligible(fs[i]) || !Eligible(fs[j]))
    requires ShiftDone(accepts, fs, magnitudes, draws, gw0, off0, gw, off, i, j)
    ensures ShiftDone(accepts, fs, magnitudes, draws, gw0, off0, gw, off, i, j + 1)
  {
    forall p, q | 0 <= p < q < |fs| && Eligible(fs[p]) && Eligible(fs[q])
      ensures Before(p, q, i, j + 1) == Before(p, q, i, j)
    {
    }
  }

  lemma ShiftRow(accepts: (PairKey, int) -> bool, fs: seq<Faction>, magnitudes: (nat, nat) -> int, draws: (nat, nat) -> real,
                 gw0: map<PairKey, int>, off0: map<PairKey, int>,
                 gw: map<PairKey, int>, off: map<PairKey, int>, i: nat, j: nat)
    requires forall p, q :: 1 <= magnitudes(p, q) <= 4
    requires j >= |fs| && ShiftDone(accepts, fs, magnitudes, draws, gw0, off0, gw, off, i, j)
    ensures ShiftDone(accepts, fs, magnitudes, draws, gw0, off0, gw, off, i + 1, i + 2)
  {
    forall p, q | 0 <= p < q < |fs| && Eligible(fs[p]) && Eligible(fs[q])
      ensures Before(p, q, i + 1, i + 2) == Before(p, q, i, j)
    {
    }
  }

  /** One turn of ApplyInitialOffsets' inner loop, for the pair at positions (i, j). */
  method InitialOffsetsCell(host: Relations, fs: seq<Faction>, offsets: (nat, nat) -> int, i: nat, j: nat,
                            ghost gw0: map<PairKey, int>, ghost off0: map<PairKey, int>, offIn: map<PairKey, int>)
    returns (off: map<PairKey, int>)
    requires host.Valid() && DistinctFactionIds(fs) && i < j < |fs| && Eligible(fs[i])
    requires forall p, q :: -20 <= offsets(p, q) <= 20
    requires InitialDone(host.accepts, fs, offsets, gw0, off0, host.goodwill, offIn, i, j)
    requires OthersKept(fs, gw0, off0, host.goodwill, offIn)
    modifies host
    ensures host.Valid()
    ensures InitialDone(host.accepts, fs, offsets, gw0, off0, host.goodwill, off, i, j + 1)
    ensures OthersKept(fs, gw0, off0, host.goodwill, off)
  {
    off := offIn;
    var a, b := fs[i], fs[j];
    if b.isPlayer || b.hidden {
      InitialSkip(host.accepts, fs, offsets, gw0, off0, host.goodwill, off, i, j);
      return;
    }
    var offset := offsets(i, j);
    var cur := host.GoodwillWith(a, b);
    var target := ClampInt(cur + offset, -100, 100);
    var delta := target - cur;
    ghost var gw', off' := InitialStep(host.accepts, fs, offsets, gw0, off0, host.goodwill, off, i, j);
    InitialDeltaBounds(cur, offset);
    if delta == 0 {
      return;
    }
    ghost var gwIn := host.goodwill;
    var _ := host.TryAffectGoodwillWith(a, b, delta);
    OthersKeptStep(fs, gw0, off0, gwIn, off, i, j, if host.goodwill == gwIn then None else Some(cur + delta), Some(delta));
    var key := Of(a.id, b.id);
    off := off[key := delta];
    assert host.goodwill == gw' && off == off';
  }

  /**
   * The inner loop of ApplyInitialOffsets for the eligible faction at
   * position `i`: `off` is the offset dictionary it leaves.
   */
  method InitialOffsetsRow(host: Relations, fs: seq<Faction>, offsets: (nat, nat) -> int, i: nat,
                           ghost gw0: map<PairKey, int>, ghost off0: map<PairKey, int>, offIn: map<PairKey, int>)
    returns (off: map<PairKey, int>)
    requires host.Valid() && DistinctFactionIds(fs) && i < |fs| && Eligible(fs[i])
    requires forall p, q :: -20 <= offsets(p, q) <= 20
    requires InitialDone(host.accepts, fs, offsets, gw0, off0, host.goodwill, offIn, i, i + 1)
    requires OthersKept(fs, gw0, off0, host.goodwill, offIn)
    modifies host
    ensures host.Valid()
    ensures InitialDone(host.accepts, fs, offsets, gw0, off0, host.goodwill, off, i, |fs|)
    ensures OthersKept(fs, gw0, off0, host.goodwill, off)
  {
    off := offIn;
    var j := i + 1;
    while j < |fs|
      invariant i + 1 <= j <= |fs| && host.Valid()
      invariant InitialDone(host.accepts, fs, offsets, gw0, off0, host.goodwill, off, i, j)
      invariant OthersKept(fs, gw0, off0, host.goodwill, off)
    {
      off := InitialOffsetsCell(host, fs, offsets, i, j, gw0, off0, off);
      j := j + 1;
    }
  }

  /** One turn of ApplyMonthlyShift's inner loop, for the pair at positions (i, j). */
  method MonthlyShiftCell(host: Relations, fs: seq<Faction>, magnitudes: (nat, nat) -> int, draws: (nat, nat) -> real,
                          i: nat, j: nat, ghost gw0: map<PairKey, int>, ghost off0: map<PairKey, int>,
                          offIn: map<PairKey, int>)
    returns (off: map<PairKey, int>)
    requires host.Valid() && DistinctFactionIds(fs) && i < j < |fs| && Eligible(fs[i])
    requires forall p, q :: 1 <= magnitudes(p, q) <= 4
    requires ShiftDone(host.accepts, fs, magnitudes, draws, gw0, off0, host.goodwill, offIn, i, j)
    requires OthersKept(fs, gw0, off0, host.goodwill, offIn)
    modifies host
    ensures host.Valid()
    ensures ShiftDone(host.accepts, fs, magnitudes, draws, gw0, off0, host.goodwill, off, i, j + 1)
    ensures OthersKept(fs, gw0, off0, host.goodwill, off)
  {
    off := offIn;
    var a, b := fs[i], fs[j];
    if b.isPlayer || b.hidden {
      ShiftSkip(host.accepts, fs, magnitudes, draws, gw0, off0, host.goodwill, off, i, j);
      return;
    }
    var delta := BiasedDelta(host.GoodwillWith(a, b), magnitudes(i, j), draws(i, j));
    ghost var gw', off' := ShiftStep(host.accepts, fs, magnitudes, draws, gw0, off0, host.goodwill, off, i, j);
    ghost var gwIn := host.goodwill;
    var _ := host.TryAffectGoodwillWith(a, b, delta);
    OthersKeptStep(fs, gw0, off0, gwIn, off, i, j,
                   if host.goodwill == gwIn then None else Some(host.goodwill[Key(fs, i, j)]),
                   Some(Get(off, Key(fs, i, j)) + delta));
    var key := Of(a.id, b.id);
    var cur := if key in off then off[key] else 0;
    off := off[key := cur + delta];
    assert host.goodwill == gw' && off == off';
  }

  /**
   * The inner loop of ApplyMonthlyShift for the eligible faction at
   * position `i`: `off` is the offset dictionary it leaves.
   */
  method MonthlyShiftRow(host: Relations, fs: seq<Faction>, magnitudes: (nat, nat) -> int, draws: (nat, nat) -> real,
                         i: nat, ghost gw0: map<PairKey, int>, ghost off0: map<PairKey, int>, offIn: map<PairKey, int>)
    returns (off: map<PairKey, int>)
    requires host.Valid() && DistinctFactionIds(fs) && i < |fs| && Eligible(fs[i])
    requires forall p, q :: 1 <= magnitudes(p, q) <= 4
    requires ShiftDone(host.accepts, fs, magnitudes, draws, gw0, off0, host.goodwill, offIn, i, i + 1)
    requires OthersKept(fs, gw0, off0, host.goodwill, offIn)
    modifies host
    ensures host.Valid()
    ensures ShiftDone(host.accepts, fs, magnitudes, draws, gw0, off0, host.goodwill, off, i, |fs|)
    ensures OthersKept(fs, gw0, off0, host.goodwill, off)
  {
    off := offIn;
    var j := i + 1;
    while j < |fs|
      invariant i + 1 <= j <= |fs| && host.Valid()
      invariant ShiftDone(host.accepts, fs, magnitudes, draws, gw0, off0, host.goodwill, off, i, j)
      invariant OthersKept(fs, gw0, off0, host.goodwill, off)
    {
      off := MonthlyShiftCell(host, fs, magnitudes, draws, i, j, gw0, off0, off);
      j := j + 1;
    }
  }

  /** The world component, with its fields TicksPerMonth, now, initialApplied and pairOffsets. */
  class DynamicFactionGoodwill {
    var ticksPerMonth: int
    var now: int
    var initialApplied: bool
    var pairOffsets: map<PairKey, int>

    constructor ()
      ensures ticksPerMonth == 0 && now == 0 && !initialApplied && pairOffsets == map[]
    {
      ticksPerMonth := 0;
      now := 0;
      initialApplied := false;
      pairOffsets := map[];
    }

    /**
     * ApplyInitialOffsets over the faction list `fs`; `offsets(i, j)` is
     * the Rand.RangeInclusive(-20, 20) draw for the pair (i, j).
     */
    method ApplyInitialOffsets(host: Relations, fs: seq<Faction>, offsets: (nat, nat) -> int)
      requires host.Valid() && DistinctFactionIds(fs)
      requires forall p, q :: -20 <= offsets(p, q) <= 20
      modifies this, host
      ensures host.Valid()
      ensures ticksPerMonth == old(ticksPerMonth) && now == old(now) && initialApplied == old(initialApplied)
      ensures InitialDone(host.accepts, fs, offsets, old(host.goodwill), old(pairOffsets), host.goodwill, pairOffsets, |fs|, 0)
      ensures OthersKept(fs, old(host.goodwill), old(pairOffsets), host.goodwill, pairOffsets)
    {
      ghost var gw0, off0 := host.goodwill, pairOffsets;
      var i := 0;
      while i < |fs|
        invariant 0 <= i <= |fs| && host.Valid()
        invariant ticksPerMonth == old(ticksPerMonth) && now == old(now) && initialApplied == old(initialApplied)
        invariant InitialDone(host.accepts, fs, offsets, gw0, off0, host.goodwill, pairOffsets, i, i + 1)
        invariant OthersKept(fs, gw0, off0, host.goodwill, pairOffsets)
      {
        var a := fs[i];
        if !(a.isPlayer || a.hidden) {
          pairOffsets := InitialOffsetsRow(host, fs, offsets, i, gw0, off0, pairOffsets);
        }
        InitialRow(host.accepts, fs, offsets, gw0, off0, host.goodwill, pairOffsets, i, |fs|);
        i := i + 1;
      }
    }

    /**
     * ApplyMonthlyShift over the faction list `fs`; `magnitudes(i, j)` and
     * `draws(i, j)` are BiasedDelta's two draws for the pair (i, j).
     */
    method ApplyMonthlyShift(host: Relations, fs: seq<Faction>, magnitudes: (nat, nat) -> int,
                             draws: (nat, nat) -> real)
      requires host.Valid() && DistinctFactionIds(fs)
      requires forall p, q :: 1 <= magnitudes(p, q) <= 4
      modifies this, host
      ensures host.Valid()
      ensures ticksPerMonth == old(ticksPerMonth) && now == old(now) && initialApplied == old(initialApplied)
      ensures ShiftDone(host.accepts, fs, magnitudes, draws, old(host.goodwill), old(pairOffsets), host.goodwill, pairOffsets, |fs|, 0)
      ensures OthersKept(fs, old(host.goodwill), old(pairOffsets), host.goodwill, pairOffsets)
    {
      ghost var gw0, off0 := host.goodwill, pairOffsets;
      var i := 0;
      while i < |fs|
        invariant 0 <= i <= |fs| && host.Valid()
        invariant ticksPerMonth == old(ticksPerMonth) && now == old(now) && initialApplied == old(initialApplied)
        invariant ShiftDone(host.accepts, fs, magnitudes, draws, gw0, off0, host.goodwill, pairOffsets, i, i + 1)
        invariant OthersKept(fs, gw0, off0, host.goodwill, pairOffsets)
      {
        var a := fs[i];
        if !(a.isPlayer || a.hidden) {
          pairOffsets := MonthlyShiftRow(host, fs, magnitudes, draws, i, gw0, off0, pairOffsets);
        }
        ShiftRow(host.accepts, fs, magnitudes, draws, gw0, off0, host.goodwill, pairOffsets, i, |fs|);
        i := i + 1;
      }
    }

    /** WorldComponentTick: count up, and on the month's last tick run the shift and start over. */
    method Tick(host: Relations, fs: seq<Faction>, magnitudes: (nat, nat) -> int, draws: (nat, nat) -> real)
      returns (shifted: bool)
      requires host.Valid() && DistinctFactionIds(fs)
      requires forall p, q :: 1 <= magnitudes(p, q) <= 4
      modifies this, host
      ensures host.Valid()
      ensures (now, shifted) == PeriodicStep(old(now), old(ticksPerMonth))
      ensures ticksPerMonth == old(ticksPerMonth) && initialApplied == old(initialApplied)
      ensures shifted ==>
                && ShiftDone(host.accepts, fs, magnitudes, draws, old(host.goodwill), old(pairOffsets), host.goodwill, pairOffsets, |fs|, 0)
                && OthersKept(fs, old(host.goodwill), old(pairOffsets), host.goodwill, pairOffsets)
      ensures !shifted ==> host.goodwill == old(host.goodwill) && pairOffsets == old(pairOffsets)
    {
      now := now + 1;
      shifted := now >= ticksPerMonth;
      if shifted {
        ApplyMonthlyShift(host, fs, magnitudes, draws);
        now := 0;
      }
    }

    /**
     * FinalizeInit. On a fresh world the initial offsets are applied and,
     * if no month length is set yet, it becomes 60000 * `months` ticks
     * (`months` the Rand.RangeInclusive(10, 20) draw). A loaded world is
     * left as it was.
     */
    method FinalizeInit(fromLoad: bool, host: Relations, fs: seq<Faction>, offsets: (nat, nat) -> int, months: int)
      requires host.Valid() && DistinctFactionIds(fs)
      requires forall p, q :: -20 <= offsets(p, q) <= 20
      requires 10 <= months <= 20
      modifies this, host
      ensures host.Valid() && now == old(now)
      ensures fromLoad ==>
                && host.goodwill == old(host.goodwill) && pairOffsets == old(pairOffsets)
                && ticksPerMonth == old(ticksPerMonth) && initialApplied == old(initialApplied)
      ensures !fromLoad ==>
                && initialApplied
                && InitialDone(host.accepts, fs, offsets, old(host.goodwill), old(pairOffsets), host.goodwill, pairOffsets, |fs|, 0)
                && OthersKept(fs, old(host.goodwill), old(pairOffsets), host.goodwill, pairOffsets)
                && ticksPerMonth == (if old(ticksPerMonth) == 0 then 60000 * months else old(ticksPerMonth))
    {
      if !fromLoad {
        ApplyInitialOffsets(host, fs, offsets);
        initialApplied := true;
      }
      if !fromLoad && ticksPerMonth == 0 {
        ticksPerMonth := 60000 * months;
      }
    }
  }
}

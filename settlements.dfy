/**
 * The settlement tiers and their base strengths ("StrongPoint"), and the
 * base strength every settlement contributes to the economy.
 */
module Settlements {

  /** The tier classes CapitalSettlement, LargeCity, SmallCity and Village. */
  datatype Tier = CapitalSettlement | LargeCity | SmallCity | Village

  /** A settlement is either a plain host settlement or one of the tier classes. */
  datatype Kind = Vanilla | Tiered(tier: Tier)

  /** The base strength of a settlement that is not of a tier class. */
  const DefaultStrength: real := 1.0

  /** The StrongPoint field initialiser of each tier class. */
  function TierStrength(t: Tier): real {
    match t
    case CapitalSettlement => 2.5
    case LargeCity => 2.0
    case SmallCity => 1.0
    case Village => 0.7
  }

  /** The place of a tier in the settlement hierarchy, capital highest. */
  function Rank(t: Tier): nat {
    match t
    case CapitalSettlement => 3
    case LargeCity => 2
    case SmallCity => 1
    case Village => 0
  }

  /**
   * GetSettlementSP / GetBaseSP: the StrongPoint of a tier settlement, 1
   * for any other settlement.
   */
  function BaseStrength(k: Kind): (r: real)
    ensures r > 0.0
    ensures k.Tiered? ==> r == TierStrength(k.tier)
    ensures k.Vanilla? ==> r == DefaultStrength
  {
    match k
    case Vanilla => DefaultStrength
    case Tiered(t) => TierStrength(t)
  }

  /** The strengths follow the hierarchy: a higher tier has a strictly larger base strength, in both directions. */
  lemma StrengthFollowsRank(a: Tier, b: Tier)
    ensures Rank(a) < Rank(b) <==> TierStrength(a) < TierStrength(b)
    ensures TierStrength(a) > 0.0
  {
  }

  /** A SmallCity is worth exactly as much as a settlement of no tier class. */
  lemma SmallCityIsDefault()
    ensures BaseStrength(Tiered(SmallCity)) == BaseStrength(Vanilla)
  {
  }
}

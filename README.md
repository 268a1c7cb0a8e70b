# RimDominion faction simulation, modelled in Dafny

RimDominion is a RimWorld mod. It has five parts:

- **World generation.** It replaces the host's faction placement. Each new visible AI faction gets a capital settlement. New settlements take their faction from nearby capitals or nearby owned settlements, and are removed when no faction claims them. A local majority can take a settlement over. Villages are then scattered around the owned settlements.
- **Faction strength.** It gives every faction a strength: the sum of the base strengths of its settlements, multiplied once by a random factor.
- **Settlement growth.** It grows every settlement's own strength once per in-game day, by a sigmoid share of its base strength.
- **Goodwill drift.** It moves the goodwill between AI factions: one random offset at world creation, then a biased random step every "month".
- **Sieges.** While there is a war situation, it starts sieges between nearby settlements. When a siege resolves, the defender may pass to the attacker's faction.

The model has one module per concern:

- `Settlements`: tiers and base strengths.
- `World`: factions, settlements, the settlement registry, the tile graph, running minima.
- `Text`: .NET `Contains`, `Replace` and `Trim`.
- `Numeric`: clamps, `Mathf.RoundToInt`, the sigmoid, tick counters.
- `Anchors`, `Territory`, `Dominance`, `Villages` and `Generation`: the world-generation patch.
- `Capitals`: the faction-generation patch.
- `StrongPoint`: faction strength.
- `SettlementStrength`: settlement growth.
- `Goodwill`: goodwill drift.
- `War`: sieges.

Some modelling choices:

- **Host state.** Host objects whose fields the source updates are classes:
  - the world-object list, which is `World.Registry`;
  - the goodwill relation;
  - the mod's world components.
- **Randomness.** Every random draw (`Rand.*`, `RandomElement`, the name generators, `TileFinder`) is an input. It is passed either as a value or as a function from the iteration (or key) to the draw. Its bounds are a precondition wherever the source's range guarantees them.
- **The logistic function.** The source computes `1 / (1 + e^-x)` in floats. It is a parameter `sigma`. Lemmas about it assume only the predicate `Numeric.IsSigmoid`: strictly between 0 and 1, one half at 0, and monotone.

`HierarchySettlements` is not part of this model. The strength code asks `s is HierarchySettlements` and reads its `StrongPoint` field. The model takes the four tier classes of `Settlements.cs` to be exactly those settlements, and every other settlement to be worth 1.

## Model

Source paths are relative to the repository root. `Faction/` stands for `Resources/RimDominion/Faction/` in the text below; the table gives full paths.

| member | source | states |
|---|---|---|
| Settlements.BaseStrength | Resources/RimDominion/Faction/StrongPoint.cs:61-66 | a tier settlement is worth its tier's StrongPoint, any other settlement 1; always positive |
| Settlements.StrengthFollowsRank | Resources/RimDominion/Faction/Settlements.cs:7-25 | a higher tier has a strictly larger base strength, and conversely; every tier's strength is positive |
| Settlements.SmallCityIsDefault | Resources/RimDominion/Faction/Settlements.cs:17-20 | a SmallCity is worth exactly as much as a settlement of no tier class |
| Numeric.ClampInt | Resources/RimDominion/Faction/DynamicGoodwill.cs:38 | the result lies in [lo, hi], equals x inside it and the nearer bound outside |
| Numeric.RoundToInt | Resources/RimDominion/Faction/WorlWarManager.cs:115 | the result is within 0.5 of x, and an exact half goes to the even neighbour |
| Numeric.SigmoidHalves | Resources/RimDominion/Faction/StrongPoints/SettlementStrongPointComp.cs:46 | a sigmoid is in [0.5, 1) on non-negative arguments and in (0, 0.5] on non-positive ones |
| Numeric.PeriodicStep | Resources/RimDominion/Faction/StrongPoints/SettlementStrongPointComp.cs:29-31 | the counter is incremented; the work runs exactly when it reaches the period, and then the counter is reset to 0; a counter below the period stays below it |
| Numeric.CounterIsRemainder | Resources/RimDominion/Faction/StrongPoints/SettlementStrongPointComp.cs:29-31 | after n ticks from 0 the counter is n mod period, so the work runs on exactly every period-th tick |
| Text.TrimKeepsAbsence | Resources/RimDominion/Faction/SettlementNode.cs:381 | trimming never creates an occurrence of a pattern |
| Text.TrimKeepsTail | Resources/RimDominion/Faction/CapitalSpawner.cs:74 | a suffix that starts and ends with non-white characters survives Trim |
| Text.ReplaceVillageRemovesAll | Resources/RimDominion/Faction/SettlementNode.cs:380-381 | after every "village" is replaced by "Village", no "village" is left |
| Text.CapitalTagHasNoVillage | Resources/RimDominion/Faction/CapitalSpawner.cs:72-74 | the tag " (Capital)" holds no " Village" and Replace leaves it alone |
| Text.ReplaceBeforeCapitalTag | Resources/RimDominion/Faction/CapitalSpawner.cs:74 | removing " Village" from name + tag removes it from the name and keeps the tag |
| Text.ContainsBeforeCapitalTag | Resources/RimDominion/Faction/CapitalSpawner.cs:73 | name + tag contains " Village" exactly when the name does |
| World.Registry.Add | Resources/RimDominion/Faction/SettlementNode.cs:53 | WorldObjects.Add appends a settlement with a fresh id and keeps the others; ids stay distinct |
| World.Registry.RemoveAt | Resources/RimDominion/Faction/SettlementNode.cs:303 | WorldObjects.Remove takes out exactly that settlement, in order |
| World.ArgMinIsNearest | Resources/RimDominion/Faction/WorlWarManager.cs:66-77 | a running minimum with a strict `<` finds nothing exactly when nothing is admitted, else an admitted index that no admitted index beats and that every earlier admitted index strictly loses to |
| World.Nearest | Resources/RimDominion/Faction/WorlWarManager.cs:66-77 | the running-minimum loop computes that index |
| Anchors.AnchorCandidates | Resources/RimDominion/Faction/SettlementNode.cs:95-119 | the candidates start with the capital's neighbour list; the tiles the search adds after it never repeat, are never the capital itself, and include every tile within 4 hops other than the capital (the breadth-first search is complete); all candidates lie within 4 hops; the list is empty exactly when the capital has no neighbours |
| Anchors.VisitNeighbours | Resources/RimDominion/Faction/SettlementNode.cs:108-117 | the neighbours of the dequeued tile not yet visited are marked visited, appended to the candidates and queued one level deeper, in neighbour order; afterwards every neighbour is visited |
| Anchors.ExpandHead | Resources/RimDominion/Faction/SettlementNode.cs:105-117 | one dequeue: a tile below depth 4 has all its neighbours visited afterwards, one at depth 4 is dropped; the breadth-first order and the search state are kept |
| Anchors.OrderExpanded | Resources/RimDominion/Faction/SettlementNode.cs:103-118 | a dequeued tile whose neighbours are all visited (or that sits at depth 4) counts as expanded, and the queue stays in breadth-first order: levels non-decreasing and at most one apart |
| Anchors.OrderDrained | Resources/RimDominion/Faction/SettlementNode.cs:103 | once the queue is empty, every visited tile has been expanded, so every neighbour of a visited tile below depth 4 is visited one level deeper at most |
| Anchors.OrderComplete | Resources/RimDominion/Faction/SettlementNode.cs:98-119 | when the search has drained, every tile within k hops of the capital (k up to 4) has been visited at level k at most |
| Anchors.SearchFinal | Resources/RimDominion/Faction/SettlementNode.cs:95-119 | the drained search's candidates are the neighbour list followed by distinct tiles other than the capital, which are exactly the tiles within 4 hops other than the capital |
| Territory.FindFactionCapital | Resources/RimDominion/Faction/SettlementNode.cs:68-80 | the first capital in list order whose owner is the faction (null matches null), or none when there is none |
| Territory.Territory.GetCapitalAnchorTile | Resources/RimDominion/Faction/SettlementNode.cs:84-129 | a null capital gives -1; a known capital gets its stored anchor with the memo unchanged; a new one gets a tile within 4 hops (its own tile when it has no neighbours), which is then stored; the memo only grows |
| Territory.Territory.ScoreCandidate | Resources/RimDominion/Faction/SettlementNode.cs:241-259 | one candidate is scored; the best list still holds, in order, every candidate with a capital at the lowest score so far |
| Territory.NoClosest | Resources/RimDominion/Faction/SettlementNode.cs:261 | an empty best list after the loop means no candidate's faction has a capital |
| Territory.DrawnClosest | Resources/RimDominion/Faction/SettlementNode.cs:262-264 | the drawn entry of the best list is a candidate with a capital at minimal anchor distance, and the result is its faction |
| Territory.Territory.FindClosestCapitalFaction | Resources/RimDominion/Faction/SettlementNode.cs:236-265 | null when no candidate's faction has a capital; otherwise the faction of some candidate whose capital anchor is nearest; every such capital ends up in the memo |
| Territory.Capitals | Resources/RimDominion/Faction/SettlementNode.cs:278-280 | exactly the positions of the capitals, in list order |
| Territory.CapitalsInRange | Resources/RimDominion/Faction/SettlementNode.cs:283-290 | exactly the capitals within the radius, in order |
| Territory.WithinAnyCapital | Resources/RimDominion/Faction/SettlementNode.cs:141-151 | true exactly when some capital is within the radius of the tile |
| Territory.NearestLenderFaction | Resources/RimDominion/Faction/SettlementNode.cs:131-183 | none exactly when no other owned settlement lies within the radius of a capital; otherwise the faction of the first such settlement nearest to the target |
| Territory.AssignFaction | Resources/RimDominion/Faction/SettlementNode.cs:266-274 | the settlement's owner and name are set, nothing else changes |
| Territory.AssignOrRemove | Resources/RimDominion/Faction/SettlementNode.cs:300-303 | a chosen faction is assigned with the name; no faction removes the settlement |
| Territory.Territory.ResolveSettlementFaction | Resources/RimDominion/Faction/SettlementNode.cs:276-322 | one capital in range gives its faction, possibly null; several go to the nearest capital anchor, and the settlement is removed when that yields null; none in range falls back to the nearest lender, and the settlement is removed when there is none; only that settlement changes; the outcome satisfies Resolution, the same decision stated on the list before the call |
| Territory.AssignedFromClaimant | Resources/RimDominion/Faction/SettlementNode.cs:276-322 | every resolution satisfies Claimed: the faction assigned is a claimant's, and the number of capitals within the radius decides keeping and removal as below |
| Territory.ClaimantFaction | Resources/RimDominion/Faction/SettlementNode.cs:276-322 | whenever the resolve assigns a faction, that faction is held by a capital within the radius or by the lender it fell back to; a null assignment comes only from an ownerless capital in range |
| Territory.ReachDecides | Resources/RimDominion/Faction/SettlementNode.cs:276-322 | a lone capital within the radius gives exactly its own faction, possibly null; with two or more, a kept settlement always has a faction, and it is removed only when some capital in range is ownerless; with none, the settlement is removed exactly when no settlement lends a faction |
| Territory.SeveralResolved | Resources/RimDominion/Faction/SettlementNode.cs:296-304 | the several-in-range branch (nearest capital anchor, removal on null) meets Resolution |
| Territory.NoneResolved | Resources/RimDominion/Faction/SettlementNode.cs:305-320 | the none-in-range branch (nearest lender, removal when there is none) meets Resolution |
| Dominance.DominanceFlip | Resources/RimDominion/Faction/SettlementNode.cs:185-234 | the counting loop and its two early returns compute Verdict |
| Dominance.CountPositive | Resources/RimDominion/Faction/SettlementNode.cs:195-215 | a count is positive exactly when a counted settlement of that faction exists |
| Dominance.ForeignIsCounted | Resources/RimDominion/Faction/SettlementNode.cs:210-213 | the dictionary's keys after the loop are exactly the foreign factions around the settlement |
| Dominance.VerdictMeaning | Resources/RimDominion/Faction/SettlementNode.cs:217-233 | a settlement passes to a faction only when that faction is the one foreign faction around it, is not its own, and strictly outnumbers its own there; otherwise it stays, in both directions |
| Dominance.VerdictIgnoresOwnerless | Resources/RimDominion/Faction/SettlementNode.cs:197-198 | ownerless settlements never affect the verdict |
| Dominance.PassKeepsShape | Resources/RimDominion/Faction/SettlementNode.cs:58-62 | the pass keeps every settlement's id, tile, class and whether it is owned; settlements not yet reached are untouched |
| Dominance.EnforceLocalDominance | Resources/RimDominion/Faction/SettlementNode.cs:58-62 | the loop over the owned settlements equals the sequential pass, each judged on the ownership its predecessors left |
| Villages.VillageName | Resources/RimDominion/Faction/SettlementNode.cs:373-381 | the cleaned-up village name never contains a lower-case "village" |
| Villages.NearestOwnedSettlement | Resources/RimDominion/Faction/SettlementNode.cs:348-363 | none exactly when no settlement is owned; otherwise the first owned settlement nearest to the tile |
| Villages.TrySpawnVillage | Resources/RimDominion/Faction/SettlementNode.cs:339-384 | a village is placed exactly when the tile passes the three tests and some settlement is owned; otherwise nothing changes; a placed village is appended with the next id on that land tile, with the nearest owned settlement's faction and the name VillageName gives, which has no "village" |
| Villages.SpawnVillages | Resources/RimDominion/Faction/SettlementNode.cs:324-386 | no settlements means no villages; at most twice the initial settlement count and at most 2 * TilesCount villages are added, behind the existing settlements, each satisfying VillageOk |
| Generation.PlaceOne | Resources/RimDominion/Faction/SettlementNode.cs:48-55 | a new ownerless plain settlement with the next id is added at the end and resolved: the outcome is exactly the three-case decision of the resolve (Resolution) on the list with the new settlement appended; the list ends up either with that settlement kept under the chosen faction and name, or unchanged when it was removed |
| Generation.PlaceTurn | Resources/RimDominion/Faction/SettlementNode.cs:48-55 | one loop turn (Turn): the next id is used up; the outcome satisfies Claimed for the new settlement, so a kept one holds a claimant's faction, a lone capital in range gives its own faction, several in range never leave it ownerless and remove it only when one of those capitals is ownerless, and with none in range it is removed exactly when there is no lender; the list is the old one with that settlement kept under the outcome's faction and name, or unchanged when it was removed |
| Generation.TurnFromResolution | Resources/RimDominion/Faction/SettlementNode.cs:48-55 | a turn whose resolve meets Resolution and whose list follows from the outcome satisfies Turn, with its removal rules |
| Generation.PlaceKeptTurn | Resources/RimDominion/Faction/SettlementNode.cs:48-55 | one loop turn as in PlaceTurn, which also keeps the settlements behind the starting list traced to their turns (KeptFromTurns) |
| Generation.TraceStep | Resources/RimDominion/Faction/SettlementNode.cs:46-56 | one more loop turn, whose outcome has a claimant and whose list follows from it, extends the placement trace by that turn |
| Generation.KeptStep | Resources/RimDominion/Faction/SettlementNode.cs:48-55 | after one more turn, the old settlements are still in front, and every settlement behind them is still one added by some assigning turn, with that turn's id, tile, faction and name |
| Generation.PlaceSettlements | Resources/RimDominion/Faction/SettlementNode.cs:46-56 | exactly max(targetCount, 0) turns run, recorded as a trace of lists and outcomes (PlacementTrace); every turn satisfies Turn: the outcome is held by a claimant of the new settlement (a capital in range or the lender) or is a lone null capital's, and the settlement is kept or removed by the removal rules of PlaceTurn; the settlements already there stay as they were, and each settlement behind them is the one added in some assigning turn, with that turn's id, tile, faction and name |
| Generation.GenerateSettlements | Resources/RimDominion/Faction/SettlementNode.cs:46-63 | the placement turns follow PlacementTrace, each with its claimant and removal rules (Turn); the list after the dominance pass is exactly DominancePass of the placed list; existing settlements keep id, tile, class and ownedness; the placed ones are plain; behind them come at most two villages per settlement, each satisfying VillageOk |
| Capitals.LastShortMeaning | Resources/RimDominion/Faction/CapitalSpawner.cs:45-52 | the loop keeps the last attempt of at most 20 characters; none exactly when every attempt is longer |
| Capitals.ChosenNameMeaning | Resources/RimDominion/Faction/CapitalSpawner.cs:44-57 | the name is the fallback draw, or a non-empty short attempt after which every attempt was too long; the fallback is taken when all attempts are too long or the last is empty |
| Capitals.SelectFactionName | Resources/RimDominion/Faction/CapitalSpawner.cs:44-57 | the selection loop yields ChosenName |
| Capitals.FactionName | Resources/RimDominion/Faction/CapitalSpawner.cs:36-59 | player factions get no name; a fixed name is used verbatim; otherwise the chosen generated name |
| Capitals.CapitalName | Resources/RimDominion/Faction/CapitalSpawner.cs:72-75 | the capital's name always ends in "(Capital)"; it is the generated name plus the tag, with " Village" removed and the result trimmed when the generated name has one |
| Capitals.NewGeneratedFaction | Resources/RimDominion/Faction/CapitalSpawner.cs:19-81 | a visible non-player faction gets exactly one new capital, owned by it, with a fresh id and the capital name; any other faction leaves the world unchanged |
| StrongPoint.OwnedSumSign | Resources/RimDominion/Faction/StrongPoint.cs:26-36 | a faction's sum is never negative, and is positive exactly when it owns a settlement |
| StrongPoint.OwnedSumIgnoresOthers | Resources/RimDominion/Faction/StrongPoint.cs:28 | another faction's or an ownerless settlement adds nothing to a faction's sum |
| StrongPoint.NotAnOwner | Resources/RimDominion/Faction/StrongPoint.cs:32-35 | a faction that owns none of the settlements has sum 0 |
| StrongPoint.SumOwned | Resources/RimDominion/Faction/StrongPoint.cs:26-36 | the dictionary has exactly the owners' ids as keys, each mapped to its owned sum |
| StrongPoint.AddListed | Resources/RimDominion/Faction/StrongPoint.cs:38-42 | every listed faction also gets an entry, and that entry is its (zero) sum |
| StrongPoint.PickKey | Resources/RimDominion/Faction/StrongPoint.cs:45 | the key enumerated next is a key of the dictionary |
| StrongPoint.Jitter | Resources/RimDominion/Faction/StrongPoint.cs:44-49 | the keys are kept and each entry is multiplied exactly once by its own draw, whatever the enumeration order |
| StrongPoint.FactionStrength.RecalculateAll | Resources/RimDominion/Faction/StrongPoint.cs:22-52 | after the rebuild the keys are the owners plus the listed factions, each mapped to its owned sum times its draw |
| StrongPoint.FactionStrength.FinalizeInit | Resources/RimDominion/Faction/StrongPoint.cs:16-20 | the rebuild runs on fresh and loaded worlds alike |
| StrongPoint.FactionStrength.GetFactionSP | Resources/RimDominion/Faction/StrongPoint.cs:54-59 | 0 for a null faction and for one without an entry, else its entry |
| StrongPoint.JitteredBounds | Resources/RimDominion/Faction/StrongPoint.cs:44-49 | each jittered entry lies between 0.8 and 1.2 times the owned sum, is non-negative, and is 0 for a faction owning nothing |
| SettlementStrength.SettlementStrongPoints.FinalizeInit | Resources/RimDominion/Faction/StrongPoints/SettlementStrongPointComp.cs:15-25 | a loaded game keeps its dictionary; a fresh one runs the seeding loop |
| SettlementStrength.SeededMeaning | Resources/RimDominion/Faction/StrongPoints/SettlementStrongPointComp.cs:21-24 | after seeding, every settlement has an entry equal to its base strength; other entries are kept; non-negativity is kept |
| SettlementStrength.GainBounds | Resources/RimDominion/Faction/StrongPoints/SettlementStrongPointComp.cs:44-47 | a growing settlement with non-negative strength gains at least half and less than all of its base strength, exactly half from 0 |
| SettlementStrength.GrownKeys | Resources/RimDominion/Faction/StrongPoints/SettlementStrongPointComp.cs:35-50 | a growth pass adds entries exactly for the settlements that grow |
| SettlementStrength.GrownNeverLowers | Resources/RimDominion/Faction/StrongPoints/SettlementStrongPointComp.cs:35-50 | a growth pass keeps every entry, never lowers a strength, and keeps strengths non-negative |
| SettlementStrength.GrownOnce | Resources/RimDominion/Faction/StrongPoints/SettlementStrongPointComp.cs:35-50 | with distinct ids, each settlement grows exactly once from its strength before the pass, and one that does not grow keeps it |
| SettlementStrength.SettlementStrongPoints.GetCurrentSP | Resources/RimDominion/Faction/StrongPoints/SettlementStrongPointComp.cs:53-57 | the stored strength, 0 for an untracked settlement |
| SettlementStrength.SettlementStrongPoints.GrowAll | Resources/RimDominion/Faction/StrongPoints/SettlementStrongPointComp.cs:35-50 | the loop, with its skips for ownerless settlements and owners of strength 0 or less, computes the growth pass |
| SettlementStrength.SettlementStrongPoints.Tick | Resources/RimDominion/Faction/StrongPoints/SettlementStrongPointComp.cs:27-51 | the counter follows PeriodicStep with period 60000; the dictionary changes only on the tick the pass runs, and then by the growth pass |
| Goodwill.Of | Resources/RimDominion/Faction/DynamicGoodwill.cs:113-117 | the key holds the two ids, smaller first |
| Goodwill.OfSymmetric | Resources/RimDominion/Faction/DynamicGoodwill.cs:113-117 | the key does not depend on the order of the ids |
| Goodwill.OfInjective | Resources/RimDominion/Faction/DynamicGoodwill.cs:113-117 | equal keys come from the same two ids, in either order |
| Goodwill.Equals | Resources/RimDominion/Faction/DynamicGoodwill.cs:119 | componentwise equality is key equality |
| Goodwill.HashCode | Resources/RimDominion/Faction/DynamicGoodwill.cs:120 | (A * 397) ^ B in wrapping 32-bit arithmetic is a 32-bit int |
| Goodwill.EqualKeysEqualHashes | Resources/RimDominion/Faction/DynamicGoodwill.cs:119-120 | keys that Equals accepts have equal hashes |
| Goodwill.PositiveChance | Resources/RimDominion/Faction/DynamicGoodwill.cs:126-127 | the chance lies in [0.1, 0.9] |
| Goodwill.BiasedDelta | Resources/RimDominion/Faction/DynamicGoodwill.cs:122-132 | the step is plus or minus the magnitude, never 0, and positive exactly when the draw is below the chance |
| Goodwill.BiasIsMonotone | Resources/RimDominion/Faction/DynamicGoodwill.cs:126-131 | with the same draws, higher goodwill never turns a positive step negative |
| Goodwill.BiasLimits | Resources/RimDominion/Faction/DynamicGoodwill.cs:126-131 | draws below 0.1 always step up, draws of 0.9 or more always step down; the chance is 0.9 from goodwill 36 and 0.1 up to goodwill 0 |
| Goodwill.InitialDelta | Resources/RimDominion/Faction/DynamicGoodwill.cs:37-39 | from goodwill in [-100, 100] the target stays in [-100, 100] |
| Goodwill.InitialDeltaBounds | Resources/RimDominion/Faction/DynamicGoodwill.cs:35-41 | the delta has the offset's sign and no larger size; it is 0 exactly for a zero offset or one pushing against the bound already reached; the host's clamp then changes nothing |
| Goodwill.Relations.GoodwillWith | Resources/RimDominion/Faction/DynamicGoodwill.cs:37 | the host's goodwill lies in [-100, 100] |
| Goodwill.Relations.TryAffectGoodwillWith | Resources/RimDominion/Faction/DynamicGoodwill.cs:43 | the host may refuse the change (its `accepts` input) and the method reports which; when accepted, the pair's goodwill moves by the delta, clamped to [-100, 100]; when refused, nothing changes; no other pair changes either way |
| Goodwill.KeysAreDistinct | Resources/RimDominion/Faction/DynamicGoodwill.cs:45 | with distinct load ids, different pairs have different keys |
| Goodwill.IneligibleNeverPaired | Resources/RimDominion/Faction/DynamicGoodwill.cs:28-33 | no key holding the player's or a hidden faction's id is ever visited |
| Goodwill.InitialStep | Resources/RimDominion/Faction/DynamicGoodwill.cs:35-46 | a pair reads the goodwill the pass started from, and its update (none for delta 0) advances the pass by one pair |
| Goodwill.ShiftStep | Resources/RimDominion/Faction/DynamicGoodwill.cs:88-93 | a pair reads its starting goodwill and offset, and its update advances the shift by one pair |
| Goodwill.InitialOffsetsCell | Resources/RimDominion/Faction/DynamicGoodwill.cs:32-46 | one inner turn of the initial pass keeps its invariant |
| Goodwill.InitialOffsetsRow | Resources/RimDominion/Faction/DynamicGoodwill.cs:30-47 | the inner loop handles every pair of its row |
| Goodwill.MonthlyShiftCell | Resources/RimDominion/Faction/DynamicGoodwill.cs:86-93 | one inner turn of the shift keeps its invariant |
| Goodwill.MonthlyShiftRow | Resources/RimDominion/Faction/DynamicGoodwill.cs:84-94 | the inner loop handles every pair of its row |
| Goodwill.DynamicFactionGoodwill.ApplyInitialOffsets | Resources/RimDominion/Faction/DynamicGoodwill.cs:21-49 | each eligible pair is moved to Clamp(start + offset) when the host accepts the delta and keeps its goodwill when it refuses; the delta is recorded unless it was 0, refused or not; no other key changes |
| Goodwill.DynamicFactionGoodwill.ApplyMonthlyShift | Resources/RimDominion/Faction/DynamicGoodwill.cs:75-96 | each eligible pair moves by its biased step from its starting goodwill (clamped by the host) when the host accepts it, and keeps its goodwill when it refuses; its record grows by that step either way; no other key changes |
| Goodwill.DynamicFactionGoodwill.Tick | Resources/RimDominion/Faction/DynamicGoodwill.cs:64-73 | the counter follows PeriodicStep with the month length; the shift runs exactly on the tick that reaches it, and nothing else changes otherwise |
| Goodwill.DynamicFactionGoodwill.FinalizeInit | Resources/RimDominion/Faction/DynamicGoodwill.cs:51-62 | a fresh world applies the initial offsets and marks them applied; an unset month becomes 60000 * months ticks; a loaded world is unchanged |
| War.EligibleSites | Resources/RimDominion/Faction/WorlWarManager.cs:58-60 | exactly the settlements owned by a faction that is neither hidden nor the player's, in order |
| War.Nearby | Resources/RimDominion/Faction/WorlWarManager.cs:81-83 | exactly the candidates other than the defender within 10 tiles of it |
| War.SelectionMeaning | Resources/RimDominion/Faction/WorlWarManager.cs:61-100 | a pair is chosen exactly when there are two or more candidates. The two differ. The defender is nearest to the provisional attacker. The attacker is a nearby candidate when there is one, else the nearest to the defender |
| War.SelectPair | Resources/RimDominion/Faction/WorlWarManager.cs:61-100 | the pair choice, with its two running-minimum loops, computes Selection |
| War.SameFactionSiege | Resources/RimDominion/Faction/WorlWarManager.cs:68-77 | nothing stops a siege inside one faction: of two candidates of the same faction, the second always defends against the first |
| War.CaptureMonotone | Resources/RimDominion/Faction/WorlWarManager.cs:143-151 | a stronger attacker or weaker defender never turns a capture into a failure; at ten times the defender's strength the chance is one half |
| War.AfterSiegeMeaning | Resources/RimDominion/Faction/WorlWarManager.cs:151-153 | a siege changes at most the defender, only its owner, to the attacker's, exactly when the roll succeeds |
| War.TickCounter | Resources/RimDominion/Faction/WorlWarManager.cs:33-40 | without a war situation nothing changes. The interval is set once: 1 in dev mode, otherwise 2 to 9 days. The counter stays below it, and the phase runs on exactly the tick that reaches it |
| War.NoSiegeOutsideDevMode | Resources/RimDominion/Faction/WorlWarManager.cs:107-117 | outside dev mode a tick starting with no active siege ends with none and changes no settlement |
| War.DevModeResolvesAtOnce | Resources/RimDominion/Faction/WorlWarManager.cs:52-53 | in dev mode a tick that runs the phase ends with no active siege unless a party is missing |
| War.WarTimeRedrawn | Resources/RimDominion/Faction/WorlWarManager.cs:130-136 | the war time is redrawn on every call: the same siege at the same count resolves under one draw and continues under another |
| War.StartMeaning | Resources/RimDominion/Faction/WorlWarManager.cs:56-118 | fewer than two candidates change nothing; otherwise two candidates' ids are stored (distinct when ids are), and the siege is active exactly in dev mode |
| War.WarManager.TryStartSiege | Resources/RimDominion/Faction/WorlWarManager.cs:56-118 | the fields become Start of the old fields |
| War.WarManager.SiegeTick | Resources/RimDominion/Faction/WorlWarManager.cs:120-137 | fields and settlements become Advance of the old ones |
| War.WarManager.ResolveSiege | Resources/RimDominion/Faction/WorlWarManager.cs:139-167 | fields and settlements become Resolve of the old ones: the pair is forgotten and the defender may change owner |
| War.WarManager.Tick | Resources/RimDominion/Faction/WorlWarManager.cs:30-54 | fields and settlements become TickResult of the old ones; the lemmas above state what that means |

## Left out

**Not modelled at all:**

- Everything before the placement loop of the generation patch (`Faction/SettlementNode.cs:16-44`) is not modelled: the reflective call to `InitializeFactions`, the early exit, and the computation of `targetCount`. `targetCount` is an input.
- `SortIdeos`, the faction's ideology, colour, initial relations and leader (`Faction/CapitalSpawner.cs`) are not modelled.
- Rendering (`cachedMat`, `Notify_StaticWorldObjectPosChanged`, the icon patch), logging and `Prefs.DevMode` logging are not modelled.
- Persistence (`ExposeData`) is not modelled. The war manager is not saved, and the model does not save it either.
- `DynamicFactionGoodwill.warSituation` is not part of the shown source. The war tick takes it as the input `atWar`.
- `travelProgress` is set to 0 and never read. It is kept as a field with no property.

- `WorldObjectComp_Capital.IsCapital` (`Faction/CapitalSpawner.cs:105-109`) is not modelled. It is a one-line test that the component exists and is flagged, and no code in this model calls it.

**Host behaviour supplied as inputs:**

- `Mathf.Exp`, and all floating-point arithmetic, are replaced by exact reals. The logistic function is a parameter; only monotonicity, range and the value at 0 are assumed.
- Distances (`ApproxDistanceInTiles`, `TraversalDistanceBetween`), tile tests and neighbour lists are functions of the `Graph` input.
- Every `Rand` draw and the name generators are inputs.
- `TileFinder.RandomSettlementTileFor` is an input tile.

**Simplifications:**

- `float.MaxValue` as the start of every running minimum is modelled as "no best yet". The model does not cover a distance equal to `float.MaxValue`.
- The settlement list is `Registry.sites`. Its order is the list order of the source. Object identity is the settlement's id, and `Faction` records stand for faction references.
- `factionStrongPoints` is keyed by `float` in the source. The model keys it by the integer load id, so two ids that round to the same float are not modelled.
- The host's goodwill is a symmetric map, clamped to [-100, 100] by `TryAffectGoodwillWith`, which may also refuse a change; the refusal rule is an input (`accepts`), not modelled, and the clamp is an assumption: the host's `Faction.TryAffectGoodwillWith` is not part of this model.
- `faction.Hidden` (CapitalSpawner) is identified with the `hidden` flag of the generation parameters. `s.Faction.def.hidden` (war, goodwill) is identified with the faction's `hidden` field.
- The war manager stores the attacker and defender as settlement ids.

- Settlements.BaseStrength: the source tests three different things. The capital filter of the resolve compares `s.def.defName == "CapitalSettlement"` (`Faction/SettlementNode.cs:279`). The capital lookup casts `objs[i] as CapitalSettlement` (`Faction/SettlementNode.cs:74`); that type is `MyMod.CapitalSettlement` (`Faction/CapitalSpawner.cs:113`), which has no StrongPoint field. The strength lookups test `s is HierarchySettlements` (`Faction/StrongPoint.cs:63`, `Faction/StrongPoints/SettlementStrongPointComp.cs:61`). The tier classes, including `RimDominion.CapitalSettlement`, derive from `Settlement` directly (`Faction/Settlements.cs:7,12,17,22`), and `HierarchySettlements` is not declared in any file of this model. The model assumes the two `CapitalSettlement` classes coincide, so all three tests pick out the same settlements: those of kind `Tiered(CapitalSettlement)` (`World.IsCapital`). It also treats every tier class as a `HierarchySettlements`, worth its own StrongPoint.

**Contracts deliberately stated weaker than the source:**

- Territory.Territory.FindClosestCapitalFaction: ties are compared with exact equality, not `Mathf.Approximately`, so scores that differ only by float noise count as different.
- War.WarManager.ResolveSiege: a party that is no longer in the world leaves every owner unchanged. The source would still call `SetFaction` on the stale object.
- Capitals.NewGeneratedFaction: the faction's own name is returned rather than stored, and the load id is an input (`GetNextFactionID`).
- Villages.SpawnVillages: the tile draw is assumed to lie in [0, TilesCount) (`Rand.Range` with an exclusive maximum). The result is stated per village, not as the exact sequence of draws consumed.

/**
 * The faction-generation patch: a new faction gets its name, and every
 * visible non-player faction gets its capital, a CapitalSettlement that
 * it owns from the start.
 */
module Capitals {
  import opened Wrappers
  import opened Text
  import opened Settlements
  import opened World

  /** The name attempts made before the fallback draw. */
  const NameAttempts: nat := 10

  /** The longest generated name the selection loop keeps. */
  const MaxNameLength: nat := 20

  /** The tag appended to a capital's generated name. */
  const CapitalTag: string := " (Capital)"

  /** The last of the first `n` drawn names no longer than MaxNameLength, by its draw index. */
  function LastShort(names: nat -> string, n: nat): Option<nat> {
    if n == 0 then None
    else if |names(n - 1)| <= MaxNameLength then Some(n - 1)
    else LastShort(names, n - 1)
  }

  /** LastShort is the latest short name: every later draw among the first `n` is too long. */
  lemma {:induction false} LastShortMeaning(names: nat -> string, n: nat)
    ensures LastShort(names, n).None? <==> forall i :: 0 <= i < n ==> |names(i)| > MaxNameLength
    ensures LastShort(names, n).Some? ==>
              var k := LastShort(names, n).value;
              && k < n && |names(k)| <= MaxNameLength
              && forall i :: k < i < n ==> |names(i)| > MaxNameLength
  {
    if n > 0 {
      LastShortMeaning(names, n - 1);
    }
  }

  /**
   * The name the selection loop settles on, draws 0..9 being the ten
   * attempts and draw 10 the fallback: the last short attempt, unless
   * there is none or it is empty.
   */
  function ChosenName(names: nat -> string): string {
    var k := LastShort(names, NameAttempts);
    if k.Some? && names(k.value) != "" then names(k.value) else names(NameAttempts)
  }

  /**
   * The chosen name is a non-empty attempt of at most 20 characters after
   * which every attempt was too long, or else the fallback draw, taken
   * exactly when no attempt was short or the last short one was empty;
   * an empty last attempt discards every earlier short one.
   */
  lemma ChosenNameMeaning(names: nat -> string)
    ensures ChosenName(names) == names(NameAttempts) ||
              exists k :: 0 <= k < NameAttempts && ChosenName(names) == names(k) && names(k) != ""
                && |names(k)| <= MaxNameLength && forall i :: k < i < NameAttempts ==> |names(i)| > MaxNameLength
    ensures (forall i :: 0 <= i < NameAttempts ==> |names(i)| > MaxNameLength) ==> ChosenName(names) == names(NameAttempts)
    ensures names(NameAttempts - 1) == "" ==> ChosenName(names) == names(NameAttempts)
  {
    LastShortMeaning(names, NameAttempts);
  }

  /** The selection loop: ten attempts, each short one replacing the text, then the fallback when it is empty. */
  method SelectFactionName(names: nat -> string) returns (text: string)
    ensures text == ChosenName(names)
  {
    text := "";
    ghost var last: Option<nat> := None;
    var i := 0;
    while i < NameAttempts
      invariant 0 <= i <= NameAttempts
      invariant last == LastShort(names, i)
      invariant text == if last.Some? then names(last.value) else ""
    {
      var text2 := names(i);
      if |text2| <= MaxNameLength {
        text := text2;
        last := Some(i);
      }
      i := i + 1;
    }
    if text == "" {
      text := names(NameAttempts);
    }
  }

  /** What the patch reads of a FactionDef. */
  datatype FactionDef = FactionDef(isPlayer: bool, fixedName: Option<string>)

  /**
   * The name the patch gives: none for a player faction, the fixed name
   * verbatim when the def has one, else the selected generated name.
   */
  function FactionName(def: FactionDef, names: nat -> string): (r: Option<string>)
    ensures def.isPlayer <==> r.None?
    ensures !def.isPlayer && def.fixedName.Some? ==> r == def.fixedName
    ensures !def.isPlayer && def.fixedName.None? ==> r == Some(ChosenName(names))
  {
    if def.isPlayer then None
    else if def.fixedName.Some? then def.fixedName
    else Some(ChosenName(names))
  }

  /** The capital-creation condition. */
  predicate GetsCapital(hidden: bool, isPlayer: bool) {
    !hidden && !isPlayer
  }

  /** The capital's name: the generated settlement name with the tag, without " Village" when it had one, trimmed. */
  function CapitalName(generated: string): (r: string)
    ensures EndsWith(r, "(Capital)")
    ensures !Contains(generated, " Village") ==> r == generated + CapitalTag
    ensures Contains(generated, " Village") ==> r == Trim(Replace(generated, " Village", "") + CapitalTag)
  {
    var name := generated + CapitalTag;
    ContainsBeforeCapitalTag(generated);
    if Contains(name, " Village") then
      ReplaceBeforeCapitalTag(generated);
      var replaced := Replace(name, " Village", "");
      assert EndsWith(replaced, "(Capital)") by {
        assert replaced[|replaced| - 9..] == CapitalTag[1..];
      }
      TrimKeepsTail(replaced, "(Capital)");
      Trim(replaced)
    else
      assert name[|name| - 9..] == CapitalTag[1..];
      name
  }

  /**
   * The patch: the faction with load id `loadID` and hidden flag
   * `hidden` is made from `def` and named; a visible non-player faction
   * gets its capital, owned by it, on the tile TileFinder chose, named
   * from `generatedSettlementName`; any other faction leaves the world as
   * it was.
   */
  method NewGeneratedFaction(reg: Registry, def: FactionDef, loadID: int, hidden: bool, names: nat -> string,
                             tile: int, generatedSettlementName: string)
    returns (faction: Faction, name: Option<string>)
    requires reg.Valid()
    modifies reg
    ensures reg.Valid()
    ensures faction == Faction(loadID, hidden, def.isPlayer)
    ensures name == FactionName(def, names)
    ensures GetsCapital(hidden, def.isPlayer) ==>
              && reg.nextId == old(reg.nextId) + 1
              && reg.sites == old(reg.sites) + [Site(old(reg.nextId), tile, Tiered(CapitalSettlement), Some(faction),
                                                      CapitalName(generatedSettlementName))]
    ensures !GetsCapital(hidden, def.isPlayer) ==> reg.sites == old(reg.sites) && reg.nextId == old(reg.nextId)
  {
    faction := Faction(loadID, hidden, def.isPlayer);
    name := None;
    if !def.isPlayer {
      if def.fixedName.Some? {
        name := def.fixedName;
      } else {
        var text := SelectFactionName(names);
        name := Some(text);
      }
    }
    if !faction.hidden && !def.isPlayer {
      var n := generatedSettlementName + CapitalTag;
      if Contains(n, " Village") {
        n := Trim(Replace(n, " Village", ""));
      }
      var _ := reg.Add(tile, Tiered(CapitalSettlement), Some(faction), n);
    }
  }
}

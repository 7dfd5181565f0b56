/** The derived statistics of `DotaHeroModel` in src/models/DotaHero.ts:
    each is a base value plus an attribute times a per-point factor, with
    an absent property read as 0. Arithmetic is over the reals. */
module HeroStats {
  import opened Wrappers
  import opened DotaHero

  /** `x ?? 0`. */
  function Or0(o: Option<real>): real {
    o.GetOr(0.0)
  }

  /** Maximum health: 20 per point of strength. */
  function Health(h: Hero): (r: real)
    ensures Or0(h.baseStr) >= 0.0 ==> r >= Or0(h.baseHealth)
    ensures h.baseHealth.None? && h.baseStr.None? ==> r == 0.0
  {
    Or0(h.baseHealth) + Or0(h.baseStr) * 20.0
  }

  /** Health regeneration: 0.1 per point of strength. */
  function HealthRegen(h: Hero): (r: real)
    ensures Or0(h.baseStr) >= 0.0 ==> r >= Or0(h.baseHealthRegen)
    ensures h.baseHealthRegen.None? && h.baseStr.None? ==> r == 0.0
  {
    Or0(h.baseHealthRegen) + Or0(h.baseStr) * 0.1
  }

  /** Maximum mana: 12 per point of intelligence. */
  function Mana(h: Hero): (r: real)
    ensures Or0(h.baseInt) >= 0.0 ==> r >= Or0(h.baseMana)
    ensures h.baseMana.None? && h.baseInt.None? ==> r == 0.0
  {
    Or0(h.baseMana) + Or0(h.baseInt) * 12.0
  }

  /** Mana regeneration: 0.05 per point of intelligence. */
  function ManaRegen(h: Hero): (r: real)
    ensures Or0(h.baseInt) >= 0.0 ==> r >= Or0(h.baseManaRegen)
    ensures h.baseManaRegen.None? && h.baseInt.None? ==> r == 0.0
  {
    Or0(h.baseManaRegen) + Or0(h.baseInt) * 0.05
  }

  /** Armor: 0.167 per point of agility. */
  function Armor(h: Hero): (r: real)
    ensures Or0(h.baseAgi) >= 0.0 ==> r >= Or0(h.baseArmor)
    ensures h.baseArmor.None? && h.baseAgi.None? ==> r == 0.0
  {
    Or0(h.baseArmor) + Or0(h.baseAgi) * 0.167
  }

  /** The damage a hero's primary attribute adds to each attack: the whole
      primary attribute, 0.6 of every attribute for a universal hero, and
      nothing for a hero without a known primary attribute. */
  function PrimaryBonus(h: Hero): (r: real)
    ensures h.primaryAttr.None? ==> r == 0.0
    ensures Or0(h.baseStr) >= 0.0 && Or0(h.baseAgi) >= 0.0 && Or0(h.baseInt) >= 0.0 ==> r >= 0.0
    ensures h.baseStr.None? && h.baseAgi.None? && h.baseInt.None? ==> r == 0.0
  {
    match h.primaryAttr
    case None => 0.0
    case Some(a) =>
      match a
      case Strength => Or0(h.baseStr)
      case Agility => Or0(h.baseAgi)
      case Intelligence => Or0(h.baseInt)
      case Universal => 0.6 * (Or0(h.baseStr) + Or0(h.baseAgi) + Or0(h.baseInt))
  }

  /** `attackMin`, case by case as the source's switch is written. */
  function AttackMin(h: Hero): (r: real)
    ensures r == Or0(h.baseAttackMin) + PrimaryBonus(h)
  {
    var base := Or0(h.baseAttackMin);
    if h.primaryAttr == Some(Strength) then base + Or0(h.baseStr)
    else if h.primaryAttr == Some(Agility) then base + Or0(h.baseAgi)
    else if h.primaryAttr == Some(Intelligence) then base + Or0(h.baseInt)
    else if h.primaryAttr == Some(Universal) then
      base + Or0(h.baseStr) * 0.6 + Or0(h.baseAgi) * 0.6 + Or0(h.baseInt) * 0.6
    else base
  }

  /** `attackMax`, the same switch over the maximum base damage. */
  function AttackMax(h: Hero): (r: real)
    ensures r == Or0(h.baseAttackMax) + PrimaryBonus(h)
  {
    var base := Or0(h.baseAttackMax);
    if h.primaryAttr == Some(Strength) then base + Or0(h.baseStr)
    else if h.primaryAttr == Some(Agility) then base + Or0(h.baseAgi)
    else if h.primaryAttr == Some(Intelligence) then base + Or0(h.baseInt)
    else if h.primaryAttr == Some(Universal) then
      base + Or0(h.baseStr) * 0.6 + Or0(h.baseAgi) * 0.6 + Or0(h.baseInt) * 0.6
    else base
  }

  /** The attack range's width is that of the base damage, whatever the
      primary attribute; so the minimum never exceeds the maximum when the
      base values are ordered. */
  lemma AttackSpread(h: Hero)
    ensures AttackMax(h) - AttackMin(h) == Or0(h.baseAttackMax) - Or0(h.baseAttackMin)
    ensures Or0(h.baseAttackMin) <= Or0(h.baseAttackMax) ==> AttackMin(h) <= AttackMax(h)
  {
  }

  /** A hero with no base values and no attributes has every statistic 0. */
  lemma BlankHeroStats(h: Hero)
    requires h.baseHealth.None? && h.baseHealthRegen.None? && h.baseMana.None?
    requires h.baseManaRegen.None? && h.baseArmor.None?
    requires h.baseAttackMin.None? && h.baseAttackMax.None?
    requires h.baseStr.None? && h.baseAgi.None? && h.baseInt.None?
    ensures Health(h) == 0.0 && HealthRegen(h) == 0.0
    ensures Mana(h) == 0.0 && ManaRegen(h) == 0.0 && Armor(h) == 0.0
    ensures AttackMin(h) == 0.0 && AttackMax(h) == 0.0
  {
  }

  /** A missing attribute counts exactly as an attribute of 0. */
  lemma MissingAttributesAreZero(h: Hero)
    requires h.baseStr.None? && h.baseAgi.None? && h.baseInt.None?
    ensures var z := h.(baseStr := Some(0.0), baseAgi := Some(0.0), baseInt := Some(0.0));
      Health(h) == Health(z) && HealthRegen(h) == HealthRegen(z) &&
      Mana(h) == Mana(z) && ManaRegen(h) == ManaRegen(z) && Armor(h) == Armor(z) &&
      AttackMin(h) == AttackMin(z) && AttackMax(h) == AttackMax(z)
  {
  }

  /** `d` more strength gives 20d health and 0.1d regeneration, and adds d
      to each attack for a strength hero, 0.6d for a universal hero, and
      nothing otherwise; mana and armor do not change. */
  lemma StrengthGain(h: Hero, d: real)
    ensures var g := h.(baseStr := Some(Or0(h.baseStr) + d));
      Health(g) == Health(h) + 20.0 * d &&
      HealthRegen(g) == HealthRegen(h) + 0.1 * d &&
      Mana(g) == Mana(h) && ManaRegen(g) == ManaRegen(h) && Armor(g) == Armor(h) &&
      AttackMin(g) - AttackMin(h) == AttackMax(g) - AttackMax(h) &&
      AttackMin(g) - AttackMin(h) ==
        (if h.primaryAttr == Some(Strength) then d
         else if h.primaryAttr == Some(Universal) then 0.6 * d
         else 0.0)
  {
  }

  /** `d` more agility gives 0.167d armor, and adds d to each attack for an
      agility hero, 0.6d for a universal hero, and nothing otherwise. */
  lemma AgilityGain(h: Hero, d: real)
    ensures var g := h.(baseAgi := Some(Or0(h.baseAgi) + d));
      Armor(g) == Armor(h) + 0.167 * d &&
      Health(g) == Health(h) && HealthRegen(g) == HealthRegen(h) &&
      Mana(g) == Mana(h) && ManaRegen(g) == ManaRegen(h) &&
      AttackMin(g) - AttackMin(h) == AttackMax(g) - AttackMax(h) &&
      AttackMin(g) - AttackMin(h) ==
        (if h.primaryAttr == Some(Agility) then d
         else if h.primaryAttr == Some(Universal) then 0.6 * d
         else 0.0)
  {
  }

  /** `d` more intelligence gives 12d mana and 0.05d regeneration, and adds
      d to each attack for an intelligence hero, 0.6d for a universal hero,
      and nothing otherwise. */
  lemma IntelligenceGain(h: Hero, d: real)
    ensures var g := h.(baseInt := Some(Or0(h.baseInt) + d));
      Mana(g) == Mana(h) + 12.0 * d &&
      ManaRegen(g) == ManaRegen(h) + 0.05 * d &&
      Health(g) == Health(h) && HealthRegen(g) == HealthRegen(h) && Armor(g) == Armor(h) &&
      AttackMin(g) - AttackMin(h) == AttackMax(g) - AttackMax(h) &&
      AttackMin(g) - AttackMin(h) ==
        (if h.primaryAttr == Some(Intelligence) then d
         else if h.primaryAttr == Some(Universal) then 0.6 * d
         else 0.0)
  {
  }
}

/** The damage range of a spell at game time. Numbers are reals; floors and ceilings are the engine's rounding. */
module SpellPower {
  import opened Wrappers

  datatype Scaling = Magic | Vocation

  /** The canonical formula as content stores it; an absent coefficient counts as zero. */
  datatype SpellFormula = SpellFormula(
    levelFactor: real, skillMin: real, skillMax: real, baseMin: real, baseMax: real,
    attackMin: Option<real>, attackMax: Option<real>, skillAttackMin: Option<real>, skillAttackMax: Option<real>,
    scaling: Option<Scaling>)

  datatype Conversion = Conversion(levelFactor: real, skillFactor: real, spread: real)

  datatype Range = Range(min: int, max: int)

  function Max(a: int, b: int): int { if a >= b then a else b }

  function Ceiling(v: real): int { -(-v).Floor }

  function OrZero(v: Option<real>): real { if v.Some? then v.value else 0.0 }

  /** The two ends before they are truncated and clamped. */
  function RawMin(f: SpellFormula, level: real, skill: real, attack: real): real {
    level * f.levelFactor + skill * f.skillMin + attack * OrZero(f.attackMin)
      + (skill * attack) * OrZero(f.skillAttackMin) + f.baseMin
  }

  function RawMax(f: SpellFormula, level: real, skill: real, attack: real): real {
    level * f.levelFactor + skill * f.skillMax + attack * OrZero(f.attackMax)
      + (skill * attack) * OrZero(f.skillAttackMax) + f.baseMax
  }

  function SpellPowerRange(basePower: real, level: real, skill: real, c: Conversion): Range {
    var mid := basePower * (1.0 + level * c.levelFactor + skill * c.skillFactor);
    Range(Max(1, (mid * (1.0 - c.spread)).Floor), Max(1, Ceiling(mid * (1.0 + c.spread))))
  }

  function EvaluateSpellPower(
    formula: Option<SpellFormula>, basePower: real, level: real, skill: real, fallback: Conversion, attack: real): Range
  {
    match formula
    case None => SpellPowerRange(basePower, level, skill, fallback)
    case Some(f) =>
      var min := Max(1, RawMin(f, level, skill, attack).Floor);
      Range(min, Max(min, RawMax(f, level, skill, attack).Floor))
  }

  lemma Product(a: real, b: real)
    requires a >= 0.0 && b >= 0.0
    ensures a * b >= 0.0
  {}

  /**
   * The range is never empty and never below one; a formula needs no condition, the fallback the bounds of the
   * content schema.
   */
  lemma RangeIsProper(formula: Option<SpellFormula>, basePower: real, level: real, skill: real, fallback: Conversion,
                      attack: real)
    requires formula.None? ==> basePower >= 0.0 && level >= 0.0 && skill >= 0.0
    requires formula.None? ==> fallback.levelFactor >= 0.0 && fallback.skillFactor >= 0.0 && fallback.spread >= 0.0
    ensures var r := EvaluateSpellPower(formula, basePower, level, skill, fallback, attack); 1 <= r.min <= r.max
  {
    if formula.None? {
      Product(level, fallback.levelFactor);
      Product(skill, fallback.skillFactor);
      var mid := basePower * (1.0 + level * fallback.levelFactor + skill * fallback.skillFactor);
      Product(basePower, 1.0 + level * fallback.levelFactor + skill * fallback.skillFactor);
      Product(mid, fallback.spread);
      assert mid * (1.0 - fallback.spread) == mid - mid * fallback.spread;
      assert mid * (1.0 + fallback.spread) == mid + mid * fallback.spread;
    }
  }
}

/**
 * The combatant entity of index.ts: fixed stats, weapon and armor, four
 * integer counters updated in place, and the point-by-point damage loop
 * shared by a single attack and by the area fireball.
 */
module Combatants {
  import opened Options
  import opened ArrayRemove

  datatype DamageType = Physical | Magical

  datatype Stats = Stats(
    strength: int, constitution: int, agility: int,
    cunning: int, intellect: int, willpower: int)

  datatype Weapon = Weapon(name: string, damage: int, damageType: DamageType)

  /** Each modifier is optional; an absent one counts as 0. */
  datatype Armor = Armor(
    name: string, barrierMod: Option<int>, armorMod: Option<int>, dodgeMod: Option<int>)

  function OrZero(m: Option<int>): int {
    match m
    case Some(v) => v
    case None => 0
  }

  /** Health at construction and after a rest: `constitution * 5`, or 1 when that is 0. */
  function StartingHp(stats: Stats): int {
    if stats.constitution * 5 != 0 then stats.constitution * 5 else 1
  }

  /** Damage points that fireball deals to each target. */
  const FireballBase := 3

  /** What is left of a target after a stream of damage, and whether it was found dead. */
  datatype Hit = Hit(hp: int, pool: int, died: bool)

  /** The four counters of a combatant at one moment. */
  datatype Counters = Counters(hp: int, armor: int, barrier: int, dodge: int)
  {
    /** The mitigation pool that absorbs damage of the given type. */
    function Pool(kind: DamageType): int {
      match kind
      case Physical => armor
      case Magical => barrier
    }
  }

  /**
   * Reference definition of the damage loop, one point per step: a target
   * already at `hp <= 0` while damage remains is reported dead and nothing
   * more happens; otherwise the matching mitigation pool absorbs the point
   * while it is positive, and `hp` takes it after that.
   */
  function Strike(hp: int, pool: int, damage: int): Hit
    decreases damage
  {
    if damage <= 0 then Hit(hp, pool, false)
    else if hp <= 0 then Hit(hp, pool, true)
    else if pool > 0 then Strike(hp, pool - 1, damage - 1)
    else Strike(hp - 1, pool, damage - 1)
  }

  /**
   * The counters of a target after the damage loop has run on them against
   * the pool of type `kind`, and whether the target was found dead.
   */
  function Damaged(k: Counters, kind: DamageType, damage: int): (Counters, bool) {
    var h := Strike(k.hp, k.Pool(kind), damage);
    match kind
    case Physical => (k.(hp := h.hp, armor := h.pool), h.died)
    case Magical => (k.(hp := h.hp, barrier := h.pool), h.died)
  }

  function Max(a: int, b: int): int { if a < b then b else a }
  function Min(a: int, b: int): int { if a < b then a else b }

  /**
   * The damage loop in closed form. Against a target that is already down
   * any positive damage only reports the death. Against a living target the
   * positive part of the pool absorbs as much as it can, `hp` loses the rest
   * but never drops below 0, and the target is reported dead exactly when
   * damage is still left after `hp` reached 0, so an exactly lethal hit
   * leaves `hp == 0` without a death report.
   */
  lemma {:induction false} StrikeClosedForm(hp: int, pool: int, damage: int)
    ensures hp <= 0 ==> Strike(hp, pool, damage) == Hit(hp, pool, damage > 0)
    ensures hp > 0 ==>
      var absorbed := Min(Max(pool, 0), Max(damage, 0));
      var rest := Max(damage, 0) - absorbed;
      Strike(hp, pool, damage) == Hit(Max(hp - rest, 0), pool - absorbed, rest > hp)
    decreases damage
  {
    if damage > 0 && hp > 0 {
      if pool > 0 {
        StrikeClosedForm(hp, pool - 1, damage - 1);
      } else {
        StrikeClosedForm(hp - 1, pool, damage - 1);
      }
    }
  }

  /**
   * The counters only go down, a living target never ends below 0, and a
   * target reported dead has `hp <= 0`.
   */
  lemma {:induction false} StrikeBounds(hp: int, pool: int, damage: int)
    ensures Strike(hp, pool, damage).hp <= hp
    ensures Strike(hp, pool, damage).pool <= pool
    ensures hp > 0 ==> Strike(hp, pool, damage).hp >= 0
    ensures Strike(hp, pool, damage).died ==> Strike(hp, pool, damage).hp <= 0
  {
    StrikeClosedForm(hp, pool, damage);
  }

  /** With no positive pool left, `hp` absorbs everything and the pool is untouched. */
  lemma {:induction false} UnprotectedStrike(hp: int, pool: int, damage: int)
    requires hp > 0 && pool <= 0
    ensures Strike(hp, pool, damage).pool == pool
    ensures Strike(hp, pool, damage).hp == Max(hp - Max(damage, 0), 0)
    ensures Strike(hp, pool, damage).died <==> damage > hp
  {
    StrikeClosedForm(hp, pool, damage);
  }

  /** A hit of exactly the remaining health leaves `hp == 0` and is not reported as a death. */
  lemma {:induction false} ExactlyLethalStrike(hp: int, pool: int, damage: int)
    requires hp > 0 && pool >= 0 && damage == pool + hp
    ensures Strike(hp, pool, damage) == Hit(0, 0, false)
  {
    StrikeClosedForm(hp, pool, damage);
  }

  /**
   * A fighter. Name, stats, weapon and armor never change; `hp` and the
   * three ratings are updated in place. The two capability flags stand for
   * the healer and fireball-caster subclasses.
   */
  class Combatant {
    const name: string
    const stats: Stats
    const weapon: Weapon
    const armor: Armor
    const canHeal: bool
    const canFireball: bool

    var hp: int
    var barrierRating: int
    var armorRating: int
    var dodgeRating: int

    /** `hp`, armor and barrier are at their construction formulas: a rest would change nothing. */
    predicate Rested()
      reads this
    {
      Now() == AfterRest(Now())
    }

    /** The counters as they are now. */
    function Now(): Counters
      reads this
    {
      Counters(hp, armorRating, barrierRating, dodgeRating)
    }

    /** The mitigation pool that absorbs damage of the given type. */
    function Pool(kind: DamageType): int
      reads this
    {
      Now().Pool(kind)
    }

    /** Total damage of one attack: weapon damage plus strength or intellect. */
    function AttackDamage(): int {
      weapon.damage + (if weapon.damageType == Physical then stats.strength else stats.intellect)
    }

    /** Damage of the fireball against each target. */
    function FireballDamage(): int {
      FireballBase + stats.intellect
    }

    /** The counters `k` after a rest: the construction formulas, with dodge kept. */
    function AfterRest(k: Counters): Counters {
      Counters(StartingHp(stats), stats.strength + OrZero(armor.armorMod),
               stats.willpower + OrZero(armor.barrierMod), k.dodge)
    }

    /**
     * What this combatant's attack with evasion roll `roll` does to a target
     * whose counters are `k`: a miss below the dodge rating, otherwise the
     * damage loop against the pool of the weapon's damage type.
     */
    function AttackOn(k: Counters, roll: int): (Counters, bool) {
      if roll < k.dodge then (k, false) else Damaged(k, weapon.damageType, AttackDamage())
    }

    constructor (name: string, stats: Stats, weapon: Weapon, armor: Armor,
                 canHeal: bool, canFireball: bool)
      ensures this.name == name && this.stats == stats
      ensures this.weapon == weapon && this.armor == armor
      ensures this.canHeal == canHeal && this.canFireball == canFireball
      ensures Rested()
      ensures dodgeRating == stats.agility + OrZero(armor.dodgeMod)
    {
      this.name := name;
      this.stats := stats;
      this.weapon := weapon;
      this.armor := armor;
      this.canHeal := canHeal;
      this.canFireball := canFireball;
      new;
      hp := StartingHp(stats);
      barrierRating := stats.willpower + OrZero(armor.barrierMod);
      armorRating := stats.strength + OrZero(armor.armorMod);
      dodgeRating := stats.agility + OrZero(armor.dodgeMod);
    }

    /**
     * Resets `hp`, armor and barrier to their construction formulas. The new
     * state depends only on the immutable fields, so a second rest changes
     * nothing; `dodgeRating` is kept.
     */
    method Rest()
      modifies this
      ensures Rested()
      ensures dodgeRating == old(dodgeRating)
      ensures Now() == AfterRest(old(Now()))
    {
      hp := StartingHp(stats);
      barrierRating := stats.willpower + OrZero(armor.barrierMod);
      armorRating := stats.strength + OrZero(armor.armorMod);
    }

    /**
     * One attack on `target` with the evasion roll `roll`. A roll below the
     * target's dodge rating misses and changes nothing. Otherwise the damage
     * loop runs against the pool matching the weapon's damage type; the
     * other pool, the dodge rating and every other object are untouched.
     * `died` is the source's `"died"` answer.
     */
    method Attack(target: Combatant, roll: int) returns (died: bool)
      requires 0 <= roll < 20
      modifies target
      ensures roll < old(target.dodgeRating) ==> !died && unchanged(target)
      ensures roll >= old(target.dodgeRating) ==>
        var r := Strike(old(target.hp), old(target.Pool(weapon.damageType)), AttackDamage());
        target.hp == r.hp && target.Pool(weapon.damageType) == r.pool && died == r.died
      ensures weapon.damageType == Physical ==> target.barrierRating == old(target.barrierRating)
      ensures weapon.damageType == Magical ==> target.armorRating == old(target.armorRating)
      ensures target.dodgeRating == old(target.dodgeRating)
      ensures (target.Now(), died) == AttackOn(old(target.Now()), roll)
    {
      if roll < target.dodgeRating {
        return false;
      }
      var damageType := weapon.damageType;
      var damage := AttackDamage();
      while damage > 0
        invariant Strike(target.hp, target.Pool(damageType), damage)
               == Strike(old(target.hp), old(target.Pool(damageType)), AttackDamage())
        invariant damageType == Physical ==> target.barrierRating == old(target.barrierRating)
        invariant damageType == Magical ==> target.armorRating == old(target.armorRating)
        invariant target.dodgeRating == old(target.dodgeRating)
        decreases damage
      {
        if target.hp <= 0 {
          return true;
        }
        if damageType == Physical {
          if target.armorRating > 0 {
            target.armorRating := target.armorRating - 1;
            damage := damage - 1;
            continue;
          }
        }
        if damageType == Magical {
          if target.barrierRating > 0 {
            target.barrierRating := target.barrierRating - 1;
            damage := damage - 1;
            continue;
          }
        }
        target.hp := target.hp - 1;
        damage := damage - 1;
      }
      died := false;
    }

    /** The healer's area heal: every listed combatant rests. */
    method Heal(targets: seq<Combatant>)
      requires canHeal
      modifies set t | t in targets
      ensures forall t :: t in targets ==> t.Rested() && t.dodgeRating == old(t.dodgeRating)
      ensures forall t :: t in targets ==> t.Now() == t.AfterRest(old(t.Now()))
    {
      for i := 0 to |targets|
        invariant forall j :: 0 <= j < i ==> targets[j].Rested()
        invariant forall t :: t in targets ==> t.dodgeRating == old(t.dodgeRating)
        invariant forall j :: 0 <= j < i ==> targets[j].Now() == targets[j].AfterRest(old(targets[j].Now()))
      {
        targets[i].Rest();
      }
    }

    /**
     * The fireball's damage loop on one target: `3 + intellect` points
     * against barrier only. `died` says whether the target was found at
     * `hp <= 0` while damage remained.
     */
    method Burn(target: Combatant) returns (died: bool)
      modifies target
      ensures var r := Strike(old(target.hp), old(target.barrierRating), FireballDamage());
        target.hp == r.hp && target.barrierRating == r.pool && died == r.died
      ensures target.armorRating == old(target.armorRating) && target.dodgeRating == old(target.dodgeRating)
      ensures (target.Now(), died) == Damaged(old(target.Now()), Magical, FireballDamage())
    {
      var damage := FireballDamage();
      while damage > 0
        invariant Strike(target.hp, target.barrierRating, damage)
               == Strike(old(target.hp), old(target.barrierRating), FireballDamage())
        invariant target.armorRating == old(target.armorRating)
        invariant target.dodgeRating == old(target.dodgeRating)
        decreases damage
      {
        if target.hp <= 0 {
          return true;
        }
        if target.barrierRating > 0 {
          target.barrierRating := target.barrierRating - 1;
          damage := damage - 1;
          continue;
        }
        target.hp := target.hp - 1;
        damage := damage - 1;
      }
      died := false;
    }

    /**
     * The fireball: each target in turn goes through the damage loop of
     * `Burn`, so its `hp` and barrier are those of `Damaged` against barrier
     * while its armor and dodge stay. The answer lists, in target order, the
     * targets found at `hp <= 0` while damage remained.
     */
    method Fireball(targets: seq<Combatant>) returns (dead: seq<Combatant>)
      requires canFireball
      requires Distinct(targets)
      modifies set t | t in targets
      ensures forall t :: t in targets ==> t.Now() == Damaged(old(t.Now()), Magical, FireballDamage()).0
      ensures dead == Victims(targets, old(NowOf(targets)), FireballDamage())
    {
      ghost var ks := NowOf(targets);
      dead := [];
      for i := 0 to |targets|
        invariant forall j :: 0 <= j < i ==> targets[j].Now() == Damaged(ks[j], Magical, FireballDamage()).0
        invariant forall j :: i <= j < |targets| ==> targets[j].Now() == ks[j]
        invariant dead == Victims(targets[..i], ks[..i], FireballDamage())
      {
        VictimsNext(targets, ks, FireballDamage(), i);
        var died := Burn(targets[i]);
        if died {
          dead := dead + [targets[i]];
        }
      }
      assert targets[..|targets|] == targets && ks[..|ks|] == ks;
    }
  }

  /** The counters of each combatant of `cs`, in order. */
  function NowOf(cs: seq<Combatant>): (r: seq<Counters>)
    reads cs
    ensures |r| == |cs|
    ensures forall i :: 0 <= i < |cs| ==> r[i] == cs[i].Now()
  {
    if cs == [] then [] else [cs[0].Now()] + NowOf(cs[1..])
  }

  /**
   * The targets, in order, that the damage loop reports dead for `damage`
   * points against barrier, when `ks` are their counters.
   */
  function Victims(targets: seq<Combatant>, ks: seq<Counters>, damage: int): (r: seq<Combatant>)
    requires |ks| == |targets|
    ensures forall x :: x in r ==>
      exists i :: 0 <= i < |targets| && targets[i] == x && Strike(ks[i].hp, ks[i].barrier, damage).died
    ensures forall i :: 0 <= i < |targets| && Strike(ks[i].hp, ks[i].barrier, damage).died ==>
      targets[i] in r
  {
    if targets == [] then []
    else
      var n := |targets| - 1;
      Victims(targets[..n], ks[..n], damage)
        + (if Strike(ks[n].hp, ks[n].barrier, damage).died then [targets[n]] else [])
  }

  /** One more target: the victims of the longer prefix add it exactly when its strike is fatal. */
  lemma VictimsNext(targets: seq<Combatant>, ks: seq<Counters>, damage: int, i: nat)
    requires |ks| == |targets| && i < |targets|
    ensures Victims(targets[..i + 1], ks[..i + 1], damage)
         == Victims(targets[..i], ks[..i], damage)
            + (if Strike(ks[i].hp, ks[i].barrier, damage).died then [targets[i]] else [])
  {
    assert targets[..i + 1][..i] == targets[..i] && ks[..i + 1][..i] == ks[..i];
  }

  /** Nobody is reported dead when no target's strike is fatal. */
  lemma {:induction false} NoVictims(targets: seq<Combatant>, ks: seq<Counters>, damage: int)
    requires |ks| == |targets|
    requires forall i :: 0 <= i < |targets| ==> !Strike(ks[i].hp, ks[i].barrier, damage).died
    ensures Victims(targets, ks, damage) == []
    decreases |targets|
  {
    if targets != [] {
      var n := |targets| - 1;
      NoVictims(targets[..n], ks[..n], damage);
    }
  }
}

/**
 * Opening exchanges between the characters that index.ts builds (Liara and
 * Mira on one side, G0BL-1 and G0BL-2 on the other), with the evasion rolls
 * fixed, traced through the model.
 */
module Scenario {
  import opened Options
  import opened Combatants

  /** Liara and G0BL-1 trade blows. */
  method MeleeExchanges()
  {
    var liara := new Combatant("Liara", Stats(1, 2, 3, 3, 0, 0),
      Weapon("Longbow", 2, Physical), Armor("Chainmail", None, Some(2), Some(1)), false, false);
    var goblin1 := new Combatant("G0BL-1", Stats(2, 1, 2, 1, 0, 1),
      Weapon("Shortsword", 3, Physical), Armor("Leather Armor", None, Some(2), None), false, false);
    assert liara.hp == 10 && liara.armorRating == 3 && liara.dodgeRating == 4;
    assert goblin1.hp == 5 && goblin1.armorRating == 4 && goblin1.dodgeRating == 2;

    // Liara's 3 physical points are all taken by G0BL-1's armor.
    StrikeClosedForm(5, 4, 3);
    var died := liara.Attack(goblin1, 19);
    assert goblin1.hp == 5 && goblin1.armorRating == 1 && !died;

    // A roll below Liara's dodge rating of 4 misses.
    died := goblin1.Attack(liara, 3);
    assert liara.hp == 10 && liara.armorRating == 3 && !died;

    // G0BL-1's 5 points: 3 on armor, then 2 on health.
    StrikeClosedForm(10, 3, 5);
    died := goblin1.Attack(liara, 19);
    assert liara.hp == 8 && liara.armorRating == 0 && !died;
  }

  /** G0BL-2's fireball on Liara and Mira. */
  method FireballOnTheParty()
  {
    var liara := new Combatant("Liara", Stats(1, 2, 3, 3, 0, 0),
      Weapon("Longbow", 2, Physical), Armor("Chainmail", None, Some(2), Some(1)), false, false);
    var mira := new Combatant("Mira", Stats(0, 3, 2, 1, 3, 1),
      Weapon("Staff of Focus", 2, Magical), Armor("Magical Robe", Some(3), None, Some(1)), true, false);
    var goblin2 := new Combatant("G0BL-2", Stats(1, 2, 3, 2, 4, 1),
      Weapon("Magic Staff", 2, Magical), Armor("Robe of Power", Some(2), None, Some(1)), false, true);
    assert liara.Now() == Counters(10, 3, 0, 4);
    assert mira.Now() == Counters(15, 0, 4, 3);

    // The fireball's 7 points: Liara has no barrier, Mira's barrier of 4 absorbs first;
    // neither is found dead.
    StrikeClosedForm(10, 0, 7);
    StrikeClosedForm(15, 4, 7);
    ghost var ks := [Counters(10, 3, 0, 4), Counters(15, 0, 4, 3)];
    assert NowOf([liara, mira]) == ks;
    var dead := goblin2.Fireball([liara, mira]);
    assert liara in [liara, mira] && mira in [liara, mira];
    assert liara.Now() == Counters(3, 3, 0, 4);
    assert mira.Now() == Counters(12, 0, 0, 3);
    NoVictims([liara, mira], ks, 7);
    assert dead == [];
  }

  /** G0BL-1 brings Liara below half health, and Mira heals the whole team, herself included. */
  method HealAfterHits()
  {
    var liara := new Combatant("Liara", Stats(1, 2, 3, 3, 0, 0),
      Weapon("Longbow", 2, Physical), Armor("Chainmail", None, Some(2), Some(1)), false, false);
    var mira := new Combatant("Mira", Stats(0, 3, 2, 1, 3, 1),
      Weapon("Staff of Focus", 2, Magical), Armor("Magical Robe", Some(3), None, Some(1)), true, false);
    var goblin1 := new Combatant("G0BL-1", Stats(2, 1, 2, 1, 0, 1),
      Weapon("Shortsword", 3, Physical), Armor("Leather Armor", None, Some(2), None), false, false);
    assert liara.Now() == Counters(10, 3, 0, 4);

    // 5 points each: 3 on armor and 2 on health, then 5 on health.
    StrikeClosedForm(10, 3, 5);
    var died := goblin1.Attack(liara, 19);
    StrikeClosedForm(8, 0, 5);
    died := goblin1.Attack(liara, 19);
    assert liara.Now() == Counters(3, 0, 0, 4) && !died;
    assert 2 * liara.hp < 5 * liara.stats.constitution;

    mira.Heal([liara, mira]);
    assert liara in [liara, mira] && mira in [liara, mira];
    assert liara.Now() == Counters(10, 3, 0, 4);
    assert mira.Now() == Counters(15, 0, 4, 3);
  }
}

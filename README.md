# Drift Horizon combat resolver, modelled in Dafny

This project models the turn-based combat resolver of the drift-horizon combat
simulator. Two teams of combatants fight until one team's roster is empty.

- A combatant has fixed stats, a weapon and armor. It also has four integer
  counters that change in place: `hp`, `armorRating`, `barrierRating` and
  `dodgeRating`.
- An attack first makes an evasion check against a roll in [0, 19].
- It then spends its damage one point at a time. The matching mitigation pool
  absorbs points first: armor for physical damage, barrier for magical damage.
  After that, `hp` takes the points.
- A healer on team one rests its whole team when another member is below half
  health.
- A fireball caster on team two hits every living enemy, against barrier only.
- Everyone else attacks the enemy with the smallest `hp` plus matching pool.
- Dead targets are spliced out of their roster with the `remove` helper that
  array.ts adds to arrays.
- Combat is abandoned at the start of round 100.

Files:

- `options.dfy` holds the `Option` type.
- `array_remove.dfy` (module `ArrayRemove`) models array.ts. It has a reference
  definition of first-occurrence removal, with lemmas, and a `List` class whose
  `Remove` and `RemoveAll` methods change the sequence in place.
- `combatants.dfy` (module `Combatants`) models the `Combatant` class of
  index.ts, along with its healer and fireball-caster subclasses.
  - `Strike` is the point-by-point reference definition of the damage loop.
  - `StrikeClosedForm` gives that loop's result in closed form.
  - The class methods `Attack`, `Burn`, `Fireball`, `Heal` and `Rest` run the
    source's loops on the objects. They are proved against `Strike`,
    `Damaged`, `AttackOn`, `AfterRest` and `Victims`.
- `targeting.dfy` (module `Targeting`) models `findWeakestEnemy` as pure
  functions: map to scores, take the minimum, find its first index.
- `simulation.dfy` (module `Simulation`) models `simulateCombat` twice.
  - On values: a `World` holds both rosters and the counters of every
    combatant. `Turn` is one pass of the turn loop's body, `Round` is the
    `for` loop over the turn order, and `Combat` is the outer `while` loop
    with its round cap.
  - On the objects: `TakeTurn`, `PlayRound` and `SimulateCombat` run the same
    loops on `List` rosters and `Combatant` objects. Each is proved to leave
    exactly the rosters, counters and result that `Turn`, `Round` and
    `Combat` give for the state it started from.
  - The bridge is `WorldOf`. It reads the rosters and the counters of a ghost
    set `everyone`, which holds every combatant on either roster at the start
    of combat.
  - Lemmas state what the value-level functions do. Rosters only lose
    members, and only at `hp <= 0`. A removal happens exactly on a death
    report. Bystanders keep their counters. The outcome is counted in rounds.
- `scenario.dfy` (module `Scenario`) has three traces with fixed rolls, using
  the four characters index.ts defines: melee exchanges, a fireball on the
  party, and a heal after hits.

Randomness becomes input:

- `Attack` takes the evasion roll as a parameter.
- `SimulateCombat` takes the turn order as a sequence that must be a permutation
  of both rosters.
- `SimulateCombat` takes `rolls(k)` as the roll of the k-th attack.

Behaviour the model keeps from the code, although a reader might expect
otherwise:

- A combatant left at exactly `hp == 0` stays in its roster and keeps taking
  turns. A hit reports a death only if damage remains once `hp <= 0`.
- Turn eligibility is roster membership, not health.
- Construction does no input validation. There is no "invalid stats" error.
- Heal is checked only on team one and fireball only on team two.
- The heal trigger looks at allies other than the caster. The heal itself
  rests all of team one, the caster included.
- Hitting the round cap is an error result (`NotResolving`), as the source
  throws.

## Model

| member | source | states |
|---|---|---|
| `ArrayRemove.IndexOf` | array.ts:15 | `indexOf` returns -1 exactly when the item is absent; otherwise it returns a position holding the item with no earlier occurrence |
| `ArrayRemove.RemoveFirstAbsent` | array.ts:15-16 | removing an item that is not present leaves the array unchanged |
| `ArrayRemove.RemoveFirstIsSplice` | array.ts:15-16 | when the item is present, the splice at `indexOf` equals the reference removal: only the first occurrence goes, the length drops by exactly 1, and the elements before and after keep their order, later duplicates included |
| `ArrayRemove.RemoveFirstMultiset` | array.ts:15-16 | removal takes away exactly one copy of a present item and keeps every other count, so later duplicates remain |
| `ArrayRemove.RemoveFirstMembers` | array.ts:15 | removal is by identity: nothing new appears, and every element different from the item stays, even one with equal fields |
| `ArrayRemove.RemoveFirstDistinct` | array.ts:15-16 | in an array without repeats, the removed item is gone afterwards and there are still no repeats |
| `ArrayRemove.RemoveEachMembers` | array.ts:8-13 | removing a list of items from an array without repeats leaves exactly the unlisted elements, with no repeats and no new counts |
| `ArrayRemove.List.Remove` | array.ts:15-16 | the in-place splice leaves the array equal to the reference first-occurrence removal of its old contents |
| `ArrayRemove.List.RemoveAll` | array.ts:8-13 | the array-argument case equals removing each item in turn, left to right |
| `Combatants.StrikeClosedForm` | index.ts:68-89 | closed form of the damage loop. From `hp <= 0`, positive damage only reports a death. From `hp > 0`, the pool loses `min(max(pool,0), D)` and `hp` becomes `max(h - rest, 0)`. A death is reported exactly when the rest exceeds `h`, so an exactly lethal hit leaves `hp == 0` with no report |
| `Combatants.StrikeBounds` | index.ts:68-89 | the damage loop never raises `hp` or the pool. From a positive start `hp` never goes below 0. A reported death means `hp <= 0` |
| `Combatants.UnprotectedStrike` | index.ts:71-89 | with no positive pool, the pool is untouched and `hp` absorbs everything; a death is reported exactly when damage exceeds `hp` |
| `Combatants.ExactlyLethalStrike` | index.ts:68-89 | damage equal to pool plus `hp` leaves both at 0 and does not report a death |
| `Combatants.Combatant.constructor` | index.ts:38-50 | after construction, `hp` is `con*5` or 1 when that is 0. Armor is `str + armorMod`, barrier is `willpower + barrierMod` and dodge is `agility + dodgeMod`; absent modifiers count as 0 |
| `Combatants.Combatant.Rest` | index.ts:52-56 | `rest` resets `hp`, armor and barrier to the construction formulas and keeps `dodgeRating`. The new state depends only on immutable fields, so `rest` is idempotent |
| `Combatants.Combatant.Attack` | index.ts:58-90 | a roll below the target's dodge changes nothing and reports no death. Otherwise `hp`, the matching pool and the answer equal the damage loop on `weapon.damage + (physical ? str : intellect)`. The other pool and the dodge rating are untouched, and only the target is modified |
| `Combatants.Combatant.Heal` | index.ts:94-98 | every listed combatant ends rested, with its dodge rating kept |
| `Combatants.Combatant.Burn` | index.ts:106-122 | the fireball's inner loop on one target: `hp`, barrier and the death report equal the damage loop on `3 + intellect` against barrier; armor and dodge are untouched |
| `Combatants.Combatant.Fireball` | index.ts:102-126 | each target's counters are those after the damage loop on `3 + intellect` against barrier. The answer is the in-order list of targets reported dead, as `Victims` gives it for the counters before the cast |
| `Combatants.Victims` | index.ts:105-125 | a target is in the fireball's dead list exactly when the damage loop against its barrier reports it dead |
| `Combatants.VictimsNext` | index.ts:105-123 | unfolding lemma for `Victims` over a longer prefix, used by the fireball's loop proof: one more target is appended exactly when its damage loop reports a death |
| `Combatants.NoVictims` | index.ts:105-125 | when no target's damage loop reports a death, the dead list is empty |
| `Targeting.Scores` | index.ts:219-221 | one score per enemy, in order: `hp` plus armor for physical, or plus barrier for magical |
| `Targeting.MinOf` | index.ts:222 | `Math.min` of a non-empty list is a member of it that no member undercuts |
| `Targeting.FindWeakestEnemy` | index.ts:216-227 | an empty roster is the "No enemies alive!" error. Otherwise the answer is the earliest enemy with the least `hp` plus matching pool |
| `Simulation.Living` | index.ts:264 | the fireball's targets are exactly the team-one members with `hp > 0`, without repeats if the roster has none |
| `Simulation.Healing` | index.ts:249-253 | a heal rests every member of team one, with dodge kept, and changes no other counters and neither roster |
| `Simulation.Assault` | index.ts:257-259 | an attack (also index.ts:270-272, on team one) hits a member of the attacked roster and changes only that target's counters. The roster keeps no repeats and gains nobody. It loses a member exactly when the attack reports that target dead, and the target is then at `hp <= 0` |
| `Simulation.Cast` | index.ts:264-266 | a fireball changes only the counters of team one. Team one keeps no repeats and gains nobody. It loses exactly the combatants on the dead list, and each of them is at `hp <= 0` |
| `Simulation.CastVictimsDown` | index.ts:105-125 | every combatant on the fireball's dead list was one of its targets and ends at `hp <= 0` |
| `Simulation.TeamOneTurn` | index.ts:246-261 | the turn of a team-one member keeps the world valid, loses roster members only at `hp <= 0`, changes no bystander, and leaves team one's roster as it was |
| `Simulation.TeamTwoTurn` | index.ts:263-273 | the turn of a team-two member keeps the world valid, loses roster members only at `hp <= 0`, changes no bystander, and leaves team two's roster as it was |
| `Simulation.Turn` | index.ts:245-273 | a turn keeps the rosters disjoint and without repeats. Nobody joins a roster, a member leaves only at `hp <= 0`, and a combatant on neither roster keeps its counters |
| `Simulation.TurnActions` | index.ts:245-273 | only a combatant on neither roster is skipped, and then nothing changes. A team-one healer heals exactly when another member is below half health. A team-two caster always casts. An attacker hits the other roster, and its own roster keeps its members. A member leaves exactly when an attack reports it dead or it is on the fireball's dead list |
| `Simulation.Round` | index.ts:243-274 | a round of turns keeps the world valid. Rosters only lose members, each at `hp <= 0`, and bystanders keep their counters |
| `Simulation.Combat` | index.ts:239-275 | combat keeps the world valid. Rosters only lose members, each at `hp <= 0`. A resolved combat reports a round count below 100 and ends with a roster empty. `NotResolving` ends with both rosters non-empty |
| `Simulation.CombatStep` | index.ts:239-243 | unfolding lemma for `Combat`: while both rosters stand below the cap, combat is one round followed by the rest of combat |
| `Simulation.CombatEnds` | index.ts:239-241 | unfolding lemma for `Combat` at its two exits, the base case of `CombatStops`: with a roster empty combat is resolved after the rounds so far, and with both standing at the cap it is the "Combat not resolving!" error, the world unchanged either way. The cap and the round count are promised by `Combat`'s ensures and `CombatByRounds` |
| `Simulation.CombatByRounds` | index.ts:239-275 | a combat resolved after `n` rounds ends in the world after `n` rounds, with both rosters standing after each earlier round. An abandoned combat ends in the world after 99 rounds, with both rosters standing after each of them |
| `Simulation.RoundsNext` | index.ts:240-274 | the state after `n + 1` rounds is one more round played on the state after `n` rounds |
| `Simulation.CombatStops` | index.ts:239-275 | the converse of `CombatByRounds`: if both rosters stood after each of the first `n` rounds, and after round `n` a roster is empty or the next round would reach the cap, then combat ends in the world after `n` rounds. It is resolved after `n` rounds if a roster is empty, and otherwise abandoned |
| `Simulation.AttackWeakest` | index.ts:257-259 | `findWeakestEnemy`, `attack` and the removal (also index.ts:270-272), on the objects, leave the roster, every combatant's counters and the action exactly as `Assault` gives them |
| `Simulation.CastFireball` | index.ts:264-266 | the filter, `fireball` and the removals, on the objects, leave team one, every combatant's counters and the action exactly as `Cast` gives them |
| `Simulation.TakeTeamOneTurn` | index.ts:246-261 | the team-one branch, on the objects, leaves both rosters, every combatant's counters and the action exactly as `TeamOneTurn` gives them |
| `Simulation.TakeTeamTwoTurn` | index.ts:263-273 | the team-two branch, on the objects, leaves both rosters, every combatant's counters and the action exactly as `TeamTwoTurn` gives them |
| `Simulation.TakeTurn` | index.ts:245-273 | one pass of the turn loop's body, on the objects, leaves both rosters, every combatant's counters and the action exactly as `Turn` gives them; a heal ends the turn as `continue` does |
| `Simulation.PlayRound` | index.ts:243-274 | the `for` loop of one round, on the objects, stops as soon as a roster is empty (`break outer`). It leaves both rosters, every combatant's counters and the attack count exactly as `Round` gives them |
| `Simulation.FightRound` | index.ts:240-274 | one pass of the outer loop, on the objects, takes the rosters, the counters and the attack count from those after `played` rounds of the starting state to those after `played + 1` rounds |
| `Simulation.SimulateCombat` | index.ts:233-275 | the whole combat, on the objects, ends with the result, both rosters and every combatant's counters exactly as `Combat` gives them for the starting state |

## Left out

- `Math.random` is not modelled (index.ts:59, 229-231). The evasion roll and the turn order are parameters. The shuffle's distribution is not modelled; the turn order is only required to be a permutation of both rosters.
- `console.log` output is not modelled (index.ts:61, 251, 277-285). That includes the final snapshot of names and counters and the "Team N wins" lines. The caller still holds every combatant object. The winner is read from which roster is empty in the final state, and the round count from `Resolved`.
- The character literals and the top-level call (index.ts:129-214, 288-291) are data. The four characters appear only in the scenario traces.
- TypeScript mechanics are not modelled. `Object.assign` becomes a constructor with parameters. `instanceof CombatantWithHeal` and `instanceof CombatantWithFireball` become the `canHeal` and `canFireball` flags. The prototype patching of arrays becomes the `List` class.
- JavaScript numbers are modelled as unbounded integers. NaN, fractions and precision loss above 2^53 are out. The `* 0.5` comparison is written as `2*hp < 5*con`, which is the same for integers.
- The "No enemy found!" branch (index.ts:224) is not modelled. It cannot fire for a non-empty roster of integer scores.
- Combatants.Combatant.Fireball: requires a target list without repeats. The source would hit a repeated target twice. Its only caller passes a filtered roster, which has no repeats.
- Simulation.TakeTurn: assumes the rosters are disjoint and repeat-free; the source checks neither. With a shared combatant it could run both team branches in one turn, when the team-one branch attacks and the combatant is still on team two afterwards. With a repeated one, a removal would leave a copy behind.
- Simulation.SimulateCombat: requires the same disjoint, repeat-free rosters. Its state is read through the counters of the combatants on the rosters at the start; objects outside both rosters are not tracked, and the source never touches them.
- ArrayRemove.List.RemoveAll: takes the items as a flat value. The recursive dispatch of array.ts:8-10 is not modelled: an item that is itself an array, or a nested array of items, would be removed by the recursive `this.remove(i)` call, element by element. The aliased call `a.remove(a)` is not modelled either. Rosters hold combatants, never arrays.

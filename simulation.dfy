/**
 * `simulateCombat` of index.ts: a fixed turn order walked round after round.
 * A combatant takes its turn only while its own roster still holds it; a
 * team-one healer heals instead of attacking when an ally is below half
 * health, a team-two fireball caster always casts, and everyone else
 * attacks the weakest enemy. Dead targets are removed from their roster.
 *
 * The combat is first defined on values (`World`, `Turn`, `Round`,
 * `Combat`); the methods `TakeTurn` and `SimulateCombat` run it on the
 * objects and are proved to leave exactly the state those functions give.
 */
module Simulation {
  import opened Options
  import opened ArrayRemove
  import opened Combatants
  import opened Targeting

  /** The round number at which combat is abandoned as not resolving. */
  const RoundCap := 100

  /** What one turn did. */
  datatype Action =
    | Skipped
    | Healed
    | Fireballed(dead: seq<Combatant>)
    | Attacked(target: Combatant, died: bool)

  /**
   * How combat ended: one roster emptied after `rounds` rounds, or the
   * source's "Combat not resolving!" error at the round cap.
   */
  datatype CombatResult = Resolved(rounds: nat) | NotResolving

  /** What combat works on: both rosters, and the counters of every combatant. */
  datatype World = World(team1: seq<Combatant>, team2: seq<Combatant>, counters: map<Combatant, Counters>)

  /** Rosters without repeats that share no combatant, and every member has counters. */
  predicate Valid(w: World) {
    Distinct(w.team1) && Distinct(w.team2) &&
    (forall x :: x in w.team1 ==> x !in w.team2 && x in w.counters) &&
    (forall x :: x in w.team2 ==> x in w.counters)
  }

  /** Neither roster is empty, so combat goes on. */
  predicate Standing(w: World) {
    w.team1 != [] && w.team2 != []
  }

  /**
   * What `later` holds for combatant `x` of `earlier`, if it came from
   * `earlier` by turns: `x` joined no roster, left one only at `hp <= 0`,
   * and kept its counters if it was on neither.
   */
  predicate Kept(earlier: World, later: World, x: Combatant)
    requires x in earlier.counters && x in later.counters
  {
    (x in later.team1 ==> x in earlier.team1) &&
    (x in later.team2 ==> x in earlier.team2) &&
    (x in earlier.team1 && x !in later.team1 ==> later.counters[x].hp <= 0) &&
    (x in earlier.team2 && x !in later.team2 ==> later.counters[x].hp <= 0) &&
    (x !in earlier.team1 && x !in earlier.team2 ==> later.counters[x] == earlier.counters[x])
  }

  /**
   * `later` comes from `earlier` by turns: the same combatants have
   * counters, and each of them is `Kept`.
   */
  predicate Follows(earlier: World, later: World) {
    earlier.counters.Keys == later.counters.Keys &&
    forall x :: x in earlier.counters ==> Kept(earlier, later, x)
  }

  /** The counters of the members of `team`, in roster order. */
  function CountersOf(m: map<Combatant, Counters>, team: seq<Combatant>): (r: seq<Counters>)
    requires forall x :: x in team ==> x in m
    ensures |r| == |team|
    ensures forall i :: 0 <= i < |team| ==> r[i] == m[team[i]]
  {
    if team == [] then [] else [m[team[0]]] + CountersOf(m, team[1..])
  }

  /**
   * Some member of `team` other than `caster` is below half of
   * `constitution * 5`; `ks` are the members' counters.
   */
  predicate AllyNeedsHeal(team: seq<Combatant>, ks: seq<Counters>, caster: Combatant)
    requires |ks| == |team|
  {
    exists i :: 0 <= i < |team| && team[i] != caster && 2 * ks[i].hp < 5 * team[i].stats.constitution
  }

  /** The fireball's targets: the members of `team` whose counters `ks` show `hp > 0`, in order. */
  function Living(team: seq<Combatant>, ks: seq<Counters>): (r: seq<Combatant>)
    requires |ks| == |team|
    ensures forall x :: x in r ==> x in team
    ensures forall x :: x in r ==> exists i :: 0 <= i < |team| && team[i] == x && ks[i].hp > 0
    ensures forall i :: 0 <= i < |team| && ks[i].hp > 0 ==> team[i] in r
    ensures Distinct(team) ==> Distinct(r)
  {
    if team == [] then []
    else
      var rest := Living(team[1..], ks[1..]);
      assert Distinct(team) ==> team[0] !in team[1..] && Distinct(team[1..]) by {
        if Distinct(team) {
          DistinctTail(team);
        }
      }
      if ks[0].hp > 0 then [team[0]] + rest else rest
  }

  /** `heal(team1)`: every member of team one rests. */
  function Healing(w: World): (r: World)
    requires Valid(w)
    ensures r.team1 == w.team1 && r.team2 == w.team2 && r.counters.Keys == w.counters.Keys
    ensures forall x :: x in w.team1 ==> r.counters[x] == x.AfterRest(w.counters[x])
    ensures forall x :: x in w.counters && x !in w.team1 ==> r.counters[x] == w.counters[x]
  {
    w.(counters := map x | x in w.counters :: if x in w.team1 then x.AfterRest(w.counters[x]) else w.counters[x])
  }

  /**
   * `c` attacks the weakest of `enemies`, whose counters are in `m`; a
   * target reported dead is removed. The answer is the new roster, the new
   * counters and the action.
   */
  function Assault(c: Combatant, enemies: seq<Combatant>, m: map<Combatant, Counters>, roll: int)
    : (r: (seq<Combatant>, map<Combatant, Counters>, Action))
    requires enemies != [] && Distinct(enemies)
    requires forall x :: x in enemies ==> x in m
    ensures r.1.Keys == m.Keys
    ensures r.2.Attacked? && r.2.target in enemies
    ensures Distinct(r.0) && forall x :: x in r.0 ==> x in enemies
    ensures forall x :: x in enemies && x !in r.0 ==> r.2 == Attacked(x, true) && r.1[x].hp <= 0
    ensures r.2.died ==> r.2.target !in r.0
    ensures forall x :: x in m && x != r.2.target ==> r.1[x] == m[x]
  {
    var i := FindWeakestEnemy(CountersOf(m, enemies), c.weapon.damageType).value;
    var target := enemies[i];
    var k := m[target];
    var hit := c.AttackOn(k, roll);
    StrikeBounds(k.hp, k.Pool(c.weapon.damageType), c.AttackDamage());
    RemoveFirstMembers(enemies, target);
    RemoveFirstDistinct(enemies, target);
    (if hit.1 then RemoveFirst(enemies, target) else enemies, m[target := hit.0], Attacked(target, hit.1))
  }

  /**
   * `c` casts fireball on the living members of `team`, whose counters are
   * in `m`; every victim is removed. The answer is the new roster, the new
   * counters and the action.
   */
  function Cast(c: Combatant, team: seq<Combatant>, m: map<Combatant, Counters>)
    : (r: (seq<Combatant>, map<Combatant, Counters>, Action))
    requires Distinct(team)
    requires forall x :: x in team ==> x in m
    ensures r.1.Keys == m.Keys
    ensures r.2.Fireballed?
    ensures Distinct(r.0) && forall x :: x in r.0 ==> x in team
    ensures forall x :: x in team && x !in r.0 ==> x in r.2.dead && r.1[x].hp <= 0
    ensures forall x :: x in r.2.dead ==> x !in r.0
    ensures forall x :: x in m && x !in team ==> r.1[x] == m[x]
  {
    var damage := c.FireballDamage();
    var targets := Living(team, CountersOf(m, team));
    var dead := Victims(targets, CountersOf(m, targets), damage);
    CastVictimsDown(m, targets, damage);
    RemoveEachMembers(team, dead);
    (RemoveEach(team, dead),
     Scorched(m, targets, damage),
     Fireballed(dead))
  }

  /** The counters after a fireball of `damage` hits every one of `targets`. */
  function Scorched(m: map<Combatant, Counters>, targets: seq<Combatant>, damage: int)
    : (r: map<Combatant, Counters>)
    ensures r.Keys == m.Keys
    ensures forall x :: x in m && x !in targets ==> r[x] == m[x]
    ensures forall x :: x in m && x in targets ==> r[x] == Damaged(m[x], Magical, damage).0
  {
    map x | x in m :: if x in targets then Damaged(m[x], Magical, damage).0 else m[x]
  }

  /** Every victim of the fireball is one of its targets and ends at `hp <= 0`. */
  lemma CastVictimsDown(m: map<Combatant, Counters>, targets: seq<Combatant>, damage: int)
    requires forall x :: x in targets ==> x in m
    ensures forall x :: x in Victims(targets, CountersOf(m, targets), damage) ==>
      x in targets && Damaged(m[x], Magical, damage).0.hp <= 0
  {
    var ks := CountersOf(m, targets);
    forall x | x in Victims(targets, ks, damage)
      ensures x in targets && Damaged(m[x], Magical, damage).0.hp <= 0
    {
      var i :| 0 <= i < |targets| && targets[i] == x && Strike(ks[i].hp, ks[i].barrier, damage).died;
      StrikeBounds(m[x].hp, m[x].barrier, damage);
    }
  }

  /**
   * The turn of team-one member `c`: a healer heals when another member of
   * team one is below half health; otherwise `c` attacks team two. Team one
   * keeps its members.
   */
  function TeamOneTurn(w: World, c: Combatant, roll: int): (r: (World, Action))
    requires Valid(w) && Standing(w) && c in w.team1
    ensures Valid(r.0) && Follows(w, r.0) && r.0.team1 == w.team1
  {
    if c.canHeal && AllyNeedsHeal(w.team1, CountersOf(w.counters, w.team1), c) then
      HealingFollows(w);
      (Healing(w), Healed)
    else
      var (enemies, m, action) := Assault(c, w.team2, w.counters, roll);
      AssaultFollows(w, c, roll, false);
      (World(w.team1, enemies, m), action)
  }

  /**
   * The turn of team-two member `c`: a fireball caster always casts on team
   * one; otherwise `c` attacks team one. Team two keeps its members.
   */
  function TeamTwoTurn(w: World, c: Combatant, roll: int): (r: (World, Action))
    requires Valid(w) && Standing(w) && c in w.team2
    ensures Valid(r.0) && Follows(w, r.0) && r.0.team2 == w.team2
  {
    if c.canFireball then
      var (allies, m, action) := Cast(c, w.team1, w.counters);
      CastFollows(w, c);
      (World(allies, w.team2, m), action)
    else
      var (enemies, m, action) := Assault(c, w.team1, w.counters, roll);
      AssaultFollows(w, c, roll, true);
      (World(enemies, w.team2, m), action)
  }

  /** A heal keeps the rosters and changes only the counters of team one. */
  lemma HealingFollows(w: World)
    requires Valid(w)
    ensures Valid(Healing(w)) && Follows(w, Healing(w))
  {
  }

  /** An attack on team two, or on team one when `onTeamOne`, keeps the world valid and follows from it. */
  lemma AssaultFollows(w: World, c: Combatant, roll: int, onTeamOne: bool)
    requires Valid(w) && Standing(w)
    ensures var r := Assault(c, if onTeamOne then w.team1 else w.team2, w.counters, roll);
      var next := if onTeamOne then World(r.0, w.team2, r.1) else World(w.team1, r.0, r.1);
      Valid(next) && Follows(w, next)
  {
  }

  /** A fireball on team one keeps the world valid and follows from it. */
  lemma CastFollows(w: World, c: Combatant)
    requires Valid(w)
    ensures var r := Cast(c, w.team1, w.counters);
      Valid(World(r.0, w.team2, r.1)) && Follows(w, World(r.0, w.team2, r.1))
  {
  }

  /**
   * One turn of combatant `c` with evasion roll `roll`: the team-one branch,
   * then the team-two branch of the turn loop, each taken only while `c` is
   * on that roster. Rosters only lose members, each lost member is at
   * `hp <= 0`, and nobody outside the rosters changes.
   */
  function Turn(w: World, c: Combatant, roll: int): (r: (World, Action))
    requires Valid(w) && Standing(w)
    ensures Valid(r.0) && Follows(w, r.0)
  {
    if c in w.team1 then TeamOneTurn(w, c, roll)
    else if c in w.team2 then TeamTwoTurn(w, c, roll)
    else (w, Skipped)
  }

  /**
   * What a turn does. Eligibility is roster membership, not health: only a
   * combatant on neither roster is skipped, and nothing changes then. The
   * heal branch is checked on team one only, and a healer heals exactly when
   * another member of team one is below half health. The fireball branch is
   * checked on team two only. An attacker hits a member of the other roster
   * and its own roster keeps its members. A member lost from team one was
   * the target of an attack that reported it dead or is on the fireball's
   * list of the dead; a member lost from team two was the target of an
   * attack that reported it dead.
   */
  lemma TurnActions(w: World, c: Combatant, roll: int)
    requires Valid(w) && Standing(w)
    ensures var r := Turn(w, c, roll);
      (r.1.Skipped? <==> c !in w.team1 && c !in w.team2) &&
      (r.1.Skipped? ==> r.0 == w) &&
      (r.1.Healed? <==>
        c in w.team1 && c.canHeal && AllyNeedsHeal(w.team1, CountersOf(w.counters, w.team1), c)) &&
      (r.1.Healed? ==> r.0.team1 == w.team1 && r.0.team2 == w.team2) &&
      (r.1.Fireballed? <==> c in w.team2 && c.canFireball) &&
      (r.1.Attacked? && c in w.team1 ==> r.1.target in w.team2 && r.0.team1 == w.team1) &&
      (r.1.Attacked? && c in w.team2 ==> r.1.target in w.team1 && r.0.team2 == w.team2)
    ensures var r := Turn(w, c, roll);
      forall x :: x in w.team1 && x !in r.0.team1 ==>
        r.1 == Attacked(x, true) || (r.1.Fireballed? && x in r.1.dead)
    ensures var r := Turn(w, c, roll);
      forall x :: x in w.team2 && x !in r.0.team2 ==> r.1 == Attacked(x, true)
    ensures var r := Turn(w, c, roll);
      r.1.Attacked? && r.1.died ==> r.1.target !in r.0.team1 && r.1.target !in r.0.team2
    ensures var r := Turn(w, c, roll);
      r.1.Fireballed? ==> forall x :: x in r.1.dead ==> x !in r.0.team1
  {
  }

  /** A world follows from itself. */
  lemma FollowsReflexive(w: World)
    ensures Follows(w, w)
  {
  }

  /** Following is transitive. */
  lemma FollowsTransitive(a: World, b: World, c: World)
    requires Valid(a) && Follows(a, b) && Follows(b, c)
    ensures Follows(a, c)
  {
  }

  /**
   * The `for` loop of one round, from position `k` of the turn order on:
   * turns are taken until the order is exhausted or a roster is empty.
   * `attacks` counts the attacks so far; attack number `n` uses `rolls(n)`.
   */
  function Round(w: World, order: seq<Combatant>, k: nat, attacks: nat, rolls: nat -> int): (r: (World, nat))
    requires Valid(w) && k <= |order|
    ensures Valid(r.0) && Follows(w, r.0)
    decreases |order| - k
  {
    if k == |order| || !Standing(w) then
      FollowsReflexive(w);
      (w, attacks)
    else
      var (next, action) := Turn(w, order[k], rolls(attacks));
      var rest := Round(next, order, k + 1, if action.Attacked? then attacks + 1 else attacks, rolls);
      FollowsTransitive(w, next, rest.0);
      rest
  }

  /**
   * The outer loop from round counter `turnCount` on: combat is resolved
   * once a roster is empty, and abandoned when the counter would reach the
   * cap. A resolved combat reports fewer than 100 rounds and leaves a roster
   * empty; an abandoned one leaves both standing.
   */
  function Combat(w: World, order: seq<Combatant>, rolls: nat -> int, turnCount: nat, attacks: nat)
    : (r: (CombatResult, World))
    requires Valid(w) && turnCount < RoundCap
    ensures Valid(r.1) && Follows(w, r.1)
    ensures r.0.Resolved? ==> turnCount <= r.0.rounds < RoundCap && !Standing(r.1)
    ensures r.0.NotResolving? ==> Standing(r.1)
    decreases RoundCap - turnCount
  {
    if !Standing(w) then
      FollowsReflexive(w);
      (Resolved(turnCount), w)
    else if turnCount + 1 >= RoundCap then
      FollowsReflexive(w);
      (NotResolving, w)
    else
      var (next, counted) := Round(w, order, 0, attacks, rolls);
      var rest := Combat(next, order, rolls, turnCount + 1, counted);
      FollowsTransitive(w, next, rest.1);
      rest
  }

  /** While both rosters stand and the cap is not reached, combat is one round followed by the rest. */
  lemma CombatStep(w: World, order: seq<Combatant>, rolls: nat -> int, turnCount: nat, attacks: nat)
    requires Valid(w) && Standing(w) && turnCount + 1 < RoundCap
    ensures var next := Round(w, order, 0, attacks, rolls);
      Combat(w, order, rolls, turnCount, attacks) == Combat(next.0, order, rolls, turnCount + 1, next.1)
  {
  }

  /** Once a roster is empty, or the counter would reach the cap, combat ends where it stands. */
  lemma CombatEnds(w: World, order: seq<Combatant>, rolls: nat -> int, turnCount: nat, attacks: nat)
    requires Valid(w) && turnCount < RoundCap
    requires !Standing(w) || turnCount + 1 >= RoundCap
    ensures Combat(w, order, rolls, turnCount, attacks)
         == (if Standing(w) then NotResolving else Resolved(turnCount), w)
  {
  }

  /** The world and the attack count after `n` complete rounds. */
  function Rounds(w: World, order: seq<Combatant>, rolls: nat -> int, n: nat, attacks: nat): (r: (World, nat))
    requires Valid(w)
    ensures Valid(r.0)
    decreases n
  {
    if n == 0 then (w, attacks)
    else
      var (next, counted) := Round(w, order, 0, attacks, rolls);
      Rounds(next, order, rolls, n - 1, counted)
  }

  /**
   * The outcome counted in rounds: a combat resolved after round `n` is the
   * world after `n` rounds, the first in which a roster is empty; a combat
   * abandoned at the cap has both rosters standing after each of the 99
   * rounds it ran, and ends in the world after the 99th.
   */
  lemma {:induction false} CombatByRounds(w: World, order: seq<Combatant>, rolls: nat -> int,
                                          turnCount: nat, attacks: nat)
    requires Valid(w) && turnCount < RoundCap
    ensures var r := Combat(w, order, rolls, turnCount, attacks);
      r.0.Resolved? ==>
        r.1 == Rounds(w, order, rolls, r.0.rounds - turnCount, attacks).0 && !Standing(r.1) &&
        forall j :: 0 <= j < r.0.rounds - turnCount ==> Standing(Rounds(w, order, rolls, j, attacks).0)
    ensures var r := Combat(w, order, rolls, turnCount, attacks);
      r.0.NotResolving? ==>
        r.1 == Rounds(w, order, rolls, RoundCap - 1 - turnCount, attacks).0 &&
        forall j :: 0 <= j < RoundCap - turnCount ==> Standing(Rounds(w, order, rolls, j, attacks).0)
    decreases RoundCap - turnCount
  {
    if Standing(w) && turnCount + 1 < RoundCap {
      var round := Round(w, order, 0, attacks, rolls);
      CombatByRounds(round.0, order, rolls, turnCount + 1, round.1);
      forall j | 1 <= j
        ensures Rounds(w, order, rolls, j, attacks) == Rounds(round.0, order, rolls, j - 1, round.1)
      {
      }
    }
  }

  /** The world after `n + 1` rounds is the world after `n` rounds, one round on. */
  lemma {:induction false} RoundsNext(w: World, order: seq<Combatant>, rolls: nat -> int, n: nat, attacks: nat)
    requires Valid(w)
    ensures var r := Rounds(w, order, rolls, n, attacks);
      Rounds(w, order, rolls, n + 1, attacks) == Round(r.0, order, 0, r.1, rolls)
    decreases n
  {
    if n > 0 {
      var round := Round(w, order, 0, attacks, rolls);
      RoundsNext(round.0, order, rolls, n - 1, round.1);
    }
  }

  /**
   * The converse of `CombatByRounds`: when both rosters stand after each of
   * the first `n` rounds, and after round `n` a roster is empty or the
   * counter would reach the cap, combat ends in the world after those `n`
   * rounds, resolved after them or abandoned accordingly.
   */
  lemma {:induction false} CombatStops(w: World, order: seq<Combatant>, rolls: nat -> int,
                                       turnCount: nat, attacks: nat, n: nat)
    requires Valid(w) && turnCount + n < RoundCap
    requires forall j :: 0 <= j < n ==> Standing(Rounds(w, order, rolls, j, attacks).0)
    requires !Standing(Rounds(w, order, rolls, n, attacks).0) || turnCount + n + 1 >= RoundCap
    ensures var r := Rounds(w, order, rolls, n, attacks).0;
      Combat(w, order, rolls, turnCount, attacks)
        == (if Standing(r) then NotResolving else Resolved(turnCount + n), r)
    decreases n
  {
    if n == 0 {
      CombatEnds(w, order, rolls, turnCount, attacks);
    } else {
      assert Standing(Rounds(w, order, rolls, 0, attacks).0);
      var round := Round(w, order, 0, attacks, rolls);
      forall j | 0 <= j < n
        ensures Rounds(w, order, rolls, j + 1, attacks) == Rounds(round.0, order, rolls, j, round.1)
      {
      }
      CombatStops(round.0, order, rolls, turnCount + 1, round.1, n - 1);
    }
  }

  /** Two different rosters, each without repeats, sharing no combatant. */
  predicate Separate(team1: List<Combatant>, team2: List<Combatant>)
    reads team1, team2
  {
    team1 != team2 && Distinct(team1.elems) && Distinct(team2.elems) &&
    forall c :: c in team1.elems ==> c !in team2.elems
  }

  /** Everyone on either roster. */
  ghost function Everyone(team1: List<Combatant>, team2: List<Combatant>): set<Combatant>
    reads team1, team2
  {
    set x | x in team1.elems + team2.elems
  }

  /** The counters of every combatant of `everyone`, as they are now. */
  ghost function Snap(everyone: set<Combatant>): map<Combatant, Counters>
    reads everyone
  {
    map x | x in everyone :: x.Now()
  }

  /** The objects' state as a world, with counters for every combatant of `everyone`. */
  ghost function WorldOf(team1: List<Combatant>, team2: List<Combatant>, everyone: set<Combatant>): World
    reads team1, team2, everyone
  {
    World(team1.elems, team2.elems, Snap(everyone))
  }

  /** The counters of `everyone` after an attack: only the target's entry is new. */
  lemma SnapAfterHit(before: map<Combatant, Counters>, after: map<Combatant, Counters>, target: Combatant)
    requires after.Keys == before.Keys && target in before
    requires forall x :: x in before && x != target ==> after[x] == before[x]
    ensures after == before[target := after[target]]
  {
  }

  /** The counters of `everyone` after a fireball: the targets' entries went through the damage loop. */
  lemma SnapAfterCast(before: map<Combatant, Counters>, after: map<Combatant, Counters>,
                      targets: seq<Combatant>, damage: int)
    requires after.Keys == before.Keys
    requires forall x :: x in before ==>
      after[x] == if x in targets then Damaged(before[x], Magical, damage).0 else before[x]
    ensures after == map x | x in before :: if x in targets then Damaged(before[x], Magical, damage).0 else before[x]
  {
  }

  /** The counters of `everyone` after a heal: the members of `team` rested. */
  lemma SnapAfterHeal(before: map<Combatant, Counters>, after: map<Combatant, Counters>, team: seq<Combatant>)
    requires after.Keys == before.Keys
    requires forall x :: x in before ==> after[x] == if x in team then x.AfterRest(before[x]) else before[x]
    ensures after == map x | x in before :: if x in team then x.AfterRest(before[x]) else before[x]
  {
  }

  /**
   * `findWeakestEnemy`, `attack` and the removal of a target reported dead
   * (index.ts:257-259 and 270-272), on the objects: the roster, the counters
   * and the action end as `Assault` says.
   */
  method AttackWeakest(c: Combatant, enemies: List<Combatant>, roll: int, ghost everyone: set<Combatant>)
    returns (action: Action)
    requires 0 <= roll < 20
    requires enemies.elems != [] && Distinct(enemies.elems)
    requires forall x :: x in enemies.elems ==> x in everyone
    modifies enemies, set x | x in enemies.elems
    ensures (enemies.elems, Snap(everyone), action) == Assault(c, old(enemies.elems), old(Snap(everyone)), roll)
    ensures forall x :: x in enemies.elems ==> x in old(enemies.elems)
  {
    ghost var m := Snap(everyone);
    var ks := NowOf(enemies.elems);
    assert ks == CountersOf(m, enemies.elems);
    var i := FindWeakestEnemy(ks, c.weapon.damageType);
    var target := enemies.elems[i.value];
    var died := c.Attack(target, roll);
    if died {
      RemoveFirstMembers(enemies.elems, target);
      enemies.Remove(target);
    }
    action := Attacked(target, died);
    assert (target.Now(), died) == c.AttackOn(m[target], roll);
    assert forall x :: x in everyone && x != target ==> x.Now() == old(x.Now());
    SnapAfterHit(m, Snap(everyone), target);
  }

  /**
   * The fireball branch (index.ts:264-266), on the objects: the roster, the
   * counters and the action end as `Cast` says.
   */
  method CastFireball(c: Combatant, allies: List<Combatant>, ghost everyone: set<Combatant>)
    returns (action: Action)
    requires c.canFireball
    requires Distinct(allies.elems)
    requires forall x :: x in allies.elems ==> x in everyone
    modifies allies, set x | x in allies.elems
    ensures (allies.elems, Snap(everyone), action) == Cast(c, old(allies.elems), old(Snap(everyone)))
  {
    ghost var m := Snap(everyone);
    var ks := NowOf(allies.elems);
    assert ks == CountersOf(m, allies.elems);
    var targets := Living(allies.elems, ks);
    ghost var tks := NowOf(targets);
    assert tks == CountersOf(m, targets);
    var dead := c.Fireball(targets);
    allies.RemoveAll(dead);
    action := Fireballed(dead);
    assert forall x :: x in everyone && x !in targets ==> x.Now() == old(x.Now());
    SnapAfterCast(m, Snap(everyone), targets, c.FireballDamage());
  }

  /**
   * The team-one branch of the turn loop (index.ts:246-261), on the
   * objects: the rosters, the counters and the action end as `TeamOneTurn`
   * says.
   */
  method TakeTeamOneTurn(c: Combatant, team1: List<Combatant>, team2: List<Combatant>, roll: int,
                         ghost everyone: set<Combatant>)
    returns (action: Action)
    requires 0 <= roll < 20
    requires team1 != team2
    requires Valid(WorldOf(team1, team2, everyone)) && Standing(WorldOf(team1, team2, everyone))
    requires c in team1.elems
    modifies team2, set x | x in team1.elems + team2.elems
    ensures (WorldOf(team1, team2, everyone), action) == TeamOneTurn(old(WorldOf(team1, team2, everyone)), c, roll)
  {
    ghost var w := WorldOf(team1, team2, everyone);
    var allies := NowOf(team1.elems);
    assert allies == CountersOf(w.counters, w.team1);
    if c.canHeal {
      if AllyNeedsHeal(team1.elems, allies, c) {
        c.Heal(team1.elems);
        ghost var after := Snap(everyone);
        forall x | x in everyone
          ensures after[x] == if x in team1.elems then x.AfterRest(w.counters[x]) else w.counters[x]
        {
          if x !in team1.elems {
            assert x.Now() == old(x.Now());
          } else {
            assert x.Now() == x.AfterRest(old(x.Now()));
          }
        }
        SnapAfterHeal(w.counters, after, team1.elems);
        return Healed;
      }
    }
    action := AttackWeakest(c, team2, roll, everyone);
  }

  /**
   * The team-two branch of the turn loop (index.ts:263-273), on the
   * objects: the rosters, the counters and the action end as `TeamTwoTurn`
   * says.
   */
  method TakeTeamTwoTurn(c: Combatant, team1: List<Combatant>, team2: List<Combatant>, roll: int,
                         ghost everyone: set<Combatant>)
    returns (action: Action)
    requires 0 <= roll < 20
    requires team1 != team2
    requires Valid(WorldOf(team1, team2, everyone)) && Standing(WorldOf(team1, team2, everyone))
    requires c in team2.elems
    modifies team1, set x | x in team1.elems + team2.elems
    ensures (WorldOf(team1, team2, everyone), action) == TeamTwoTurn(old(WorldOf(team1, team2, everyone)), c, roll)
  {
    if c.canFireball {
      action := CastFireball(c, team1, everyone);
      return;
    }
    action := AttackWeakest(c, team1, roll, everyone);
  }

  /**
   * One turn of combatant `c`, on the objects: the rosters and the counters
   * of every combatant end as `Turn` says, and the action is the one it
   * gives. A heal ends the turn, as the source's `continue` does.
   */
  method TakeTurn(c: Combatant, team1: List<Combatant>, team2: List<Combatant>, roll: int,
                  ghost everyone: set<Combatant>)
    returns (action: Action)
    requires 0 <= roll < 20
    requires team1 != team2
    requires Valid(WorldOf(team1, team2, everyone)) && Standing(WorldOf(team1, team2, everyone))
    modifies team1, team2, set x | x in team1.elems + team2.elems
    ensures (WorldOf(team1, team2, everyone), action) == Turn(old(WorldOf(team1, team2, everyone)), c, roll)
  {
    action := Skipped;
    if c in team1.elems {
      action := TakeTeamOneTurn(c, team1, team2, roll, everyone);
      if action.Healed? {
        return;
      }
    }
    if c in team2.elems {
      action := TakeTeamTwoTurn(c, team1, team2, roll, everyone);
    }
  }

  /**
   * The `for` loop of one round, on the objects: the turns of `order` in
   * turn, stopping as soon as a roster is empty (the source's `break outer`,
   * after which the `while` condition fails as well). `attacks` counts the
   * attacks so far. The rosters, the counters and the count end as `Round`
   * says.
   */
  method PlayRound(team1: List<Combatant>, team2: List<Combatant>, order: seq<Combatant>,
                   rolls: nat -> int, attacks: nat, ghost everyone: set<Combatant>)
    returns (counted: nat)
    requires forall n :: 0 <= rolls(n) < 20
    requires team1 != team2 && Valid(WorldOf(team1, team2, everyone))
    modifies team1, team2, everyone
    ensures (WorldOf(team1, team2, everyone), counted)
         == Round(old(WorldOf(team1, team2, everyone)), order, 0, attacks, rolls)
  {
    ghost var roundEnd := Round(WorldOf(team1, team2, everyone), order, 0, attacks, rolls);
    counted := attacks;
    for k := 0 to |order|
      invariant team1 != team2 && Valid(WorldOf(team1, team2, everyone))
      invariant Round(WorldOf(team1, team2, everyone), order, k, counted, rolls) == roundEnd
    {
      if team1.elems == [] || team2.elems == [] {
        return;
      }
      var action := TakeTurn(order[k], team1, team2, rolls(counted), everyone);
      if action.Attacked? {
        counted := counted + 1;
      }
    }
  }

  /**
   * One pass of the outer loop below the cap: the rosters and counters,
   * which are those after `played` rounds from `start`, go through one more
   * round.
   */
  method FightRound(team1: List<Combatant>, team2: List<Combatant>, order: seq<Combatant>,
                    rolls: nat -> int, ghost start: World, ghost played: nat, attacks: nat,
                    ghost everyone: set<Combatant>)
    returns (counted: nat)
    requires forall n :: 0 <= rolls(n) < 20
    requires Valid(start) && team1 != team2 && Valid(WorldOf(team1, team2, everyone))
    requires (WorldOf(team1, team2, everyone), attacks) == Rounds(start, order, rolls, played, 0)
    modifies team1, team2, everyone
    ensures Valid(WorldOf(team1, team2, everyone))
    ensures (WorldOf(team1, team2, everyone), counted) == Rounds(start, order, rolls, played + 1, 0)
  {
    RoundsNext(start, order, rolls, played, 0);
    counted := PlayRound(team1, team2, order, rolls, attacks, everyone);
  }

  /**
   * The whole combat, on the objects. `order` is the shuffled turn order, a
   * permutation of both rosters; `rolls(n)` is the evasion roll of the n-th
   * attack. The result, the rosters and the counters of every combatant end
   * as `Combat` says for the starting state.
   */
  method SimulateCombat(team1: List<Combatant>, team2: List<Combatant>,
                        order: seq<Combatant>, rolls: nat -> int)
    returns (result: CombatResult)
    requires Separate(team1, team2)
    requires multiset(order) == multiset(team1.elems) + multiset(team2.elems)
    requires forall n :: 0 <= rolls(n) < 20
    modifies team1, team2, set x | x in team1.elems + team2.elems
    ensures var everyone := old(Everyone(team1, team2));
      (result, WorldOf(team1, team2, everyone)) == Combat(old(WorldOf(team1, team2, everyone)), order, rolls, 0, 0)
  {
    ghost var everyone := Everyone(team1, team2);
    ghost var start := WorldOf(team1, team2, everyone);
    var turnCount := 0;
    var attacks := 0;
    while team1.elems != [] && team2.elems != []
      invariant 0 <= turnCount < RoundCap
      invariant team1 != team2
      invariant (WorldOf(team1, team2, everyone), attacks) == Rounds(start, order, rolls, turnCount, 0)
      invariant forall j :: 0 <= j < turnCount ==> Standing(Rounds(start, order, rolls, j, 0).0)
      decreases RoundCap - turnCount
    {
      turnCount := turnCount + 1;
      if turnCount >= RoundCap {
        CombatStops(start, order, rolls, 0, 0, turnCount - 1);
        return NotResolving;
      }
      attacks := FightRound(team1, team2, order, rolls, start, turnCount - 1, attacks, everyone);
    }
    CombatStops(start, order, rolls, 0, 0, turnCount);
    return Resolved(turnCount);
  }
}

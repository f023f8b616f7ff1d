/**
 * `findWeakestEnemy` of index.ts: score every enemy by its health plus the
 * pool that the attacker's damage type has to get through, take the minimum
 * score, and pick the first enemy that has it. The enemies are given by
 * their counters, in roster order; the answer is a position in the roster.
 */
module Targeting {
  import opened Options
  import opened ArrayRemove
  import opened Combatants

  /** Effective health of an enemy with counters `k` against damage of type `kind`. */
  function Score(k: Counters, kind: DamageType): int {
    k.hp + k.Pool(kind)
  }

  /** The `map` step: one score per enemy, in roster order. */
  function Scores(ks: seq<Counters>, kind: DamageType): (r: seq<int>)
    ensures |r| == |ks|
    ensures forall i :: 0 <= i < |ks| ==> r[i] == Score(ks[i], kind)
  {
    if ks == [] then []
    else [Score(ks[0], kind)] + Scores(ks[1..], kind)
  }

  /** `Math.min` over a non-empty list: a member that no member undercuts. */
  function MinOf(s: seq<int>): (m: int)
    requires s != []
    ensures m in s
    ensures forall i :: 0 <= i < |s| ==> m <= s[i]
  {
    if |s| == 1 then s[0]
    else
      var rest := MinOf(s[1..]);
      if s[0] <= rest then s[0] else rest
  }

  /**
   * The enemy to attack, as its position in the roster. An empty roster is
   * the source's "No enemies alive!" error. Otherwise the chosen enemy has
   * the least score, and every enemy before it scores strictly more.
   */
  function FindWeakestEnemy(ks: seq<Counters>, kind: DamageType): (r: Option<nat>)
    ensures r.None? <==> ks == []
    ensures r.Some? ==> r.value < |ks|
    ensures r.Some? ==> forall j :: 0 <= j < |ks| ==> Score(ks[r.value], kind) <= Score(ks[j], kind)
    ensures r.Some? ==> forall j :: 0 <= j < r.value ==> Score(ks[r.value], kind) < Score(ks[j], kind)
  {
    if ks == [] then None
    else
      var scores := Scores(ks, kind);
      var index := IndexOf(scores, MinOf(scores));
      assert forall j :: 0 <= j < index ==> scores[..index][j] == scores[j];
      Some(index)
  }
}

/** Belt derivation: the rank a team holds given its grants and the ordered
    curriculum of belt tiers.

    The walk visits the tiers in order and, inside each, the skills in
    order. Holding a tier's last skill moves the belt to that tier; the first
    skill the team lacks ends the walk with the belt reached so far. An empty
    tier neither advances the belt nor ends the walk.
 */
module Belts {
  import opened Grants

  /** One belt of the curriculum with the skills it requires, in order. */
  datatype Tier = Tier(name: string, skills: seq<string>)

  /** The curriculum, lowest belt first. */
  type Curriculum = seq<Tier>

  /** The belt of a team that has completed no non-empty tier. */
  const InitialBelt: string := "white"

  /** State of the walk after a tier: it either stopped at a missing skill
      or goes on to the next tier, carrying the belt reached so far. */
  datatype Walk = Halted(belt: string) | Continue(belt: string)

  /** Every skill the tier requires is granted. */
  predicate TierDone(grants: seq<Grant>, tier: Tier) {
    forall j :: 0 <= j < |tier.skills| ==> HasSkill(grants, tier.skills[j])
  }

  /** Tier `j` requires a skill, and it and every tier from `t` up to it are done. */
  predicate ReachedBy(grants: seq<Grant>, curriculum: Curriculum, t: nat, j: nat)
    requires t <= j < |curriculum|
  {
    && |curriculum[j].skills| > 0
    && forall m :: t <= m <= j ==> TierDone(grants, curriculum[m])
  }

  /** Inner loop: the skills of `tier` from index `i` on, with `current`
      the belt held on entry to index `i`. */
  function WalkTier(grants: seq<Grant>, tier: Tier, i: nat, current: string): (w: Walk)
    requires i <= |tier.skills|
    ensures w.Continue? <==> forall j :: i <= j < |tier.skills| ==> HasSkill(grants, tier.skills[j])
    ensures w.Halted? ==> w.belt == current
    ensures w.Continue? ==> w.belt == (if i < |tier.skills| then tier.name else current)
    decreases |tier.skills| - i
  {
    if i == |tier.skills| then Continue(current)
    else if HasSkill(grants, tier.skills[i]) then
      WalkTier(grants, tier, i + 1, if i == |tier.skills| - 1 then tier.name else current)
    else Halted(current)
  }

  /** Outer loop: the tiers from index `t` on, with `current` the belt held
      on entry to tier `t`. */
  function WalkTiers(grants: seq<Grant>, curriculum: Curriculum, t: nat, current: string): (r: string)
    requires t <= |curriculum|
    ensures r == current || exists j :: t <= j < |curriculum| && ReachedBy(grants, curriculum, t, j) && r == curriculum[j].name
    decreases |curriculum| - t
  {
    if t == |curriculum| then current
    else match WalkTier(grants, curriculum[t], 0, current)
      case Halted(b) => b
      case Continue(b) =>
        var r := WalkTiers(grants, curriculum, t + 1, b);
        assert r == current || exists j :: t <= j < |curriculum| && ReachedBy(grants, curriculum, t, j) && r == curriculum[j].name by {
          if r == b && b != current {
            assert ReachedBy(grants, curriculum, t, t);
          } else if r != b {
            var j :| t + 1 <= j < |curriculum| && ReachedBy(grants, curriculum, t + 1, j) && r == curriculum[j].name;
            assert TierDone(grants, curriculum[t]);
            assert ReachedBy(grants, curriculum, t, j);
          }
        }
        r
  }

  /** The belt of a team holding `grants`: white, or the name of a non-empty
      tier that the team has completed together with every tier before it. */
  function Belt(grants: seq<Grant>, curriculum: Curriculum): (r: string)
    ensures r == InitialBelt || exists j :: 0 <= j < |curriculum| && ReachedBy(grants, curriculum, 0, j) && r == curriculum[j].name
  {
    WalkTiers(grants, curriculum, 0, InitialBelt)
  }

  // ---------------------------------------------------------------------
  // Reference definition: the last non-empty tier of the completed run.

  /** The name of the last non-empty tier of `tiers`, or the initial belt
      when every tier is empty (or there is none). */
  function LastNonEmpty(tiers: seq<Tier>): string {
    if |tiers| == 0 then InitialBelt
    else if |tiers[|tiers| - 1].skills| > 0 then tiers[|tiers| - 1].name
    else LastNonEmpty(tiers[..|tiers| - 1])
  }

  /** `k` is the length of the longest run of leading tiers whose every
      skill is granted. */
  ghost predicate IsCompletedRun(grants: seq<Grant>, curriculum: Curriculum, k: nat) {
    && k <= |curriculum|
    && (forall j :: 0 <= j < k ==> TierDone(grants, curriculum[j]))
    && (k < |curriculum| ==> !TierDone(grants, curriculum[k]))
  }

  /** Every curriculum has a completed run. */
  lemma {:induction false} CompletedRunExists(grants: seq<Grant>, curriculum: Curriculum) returns (k: nat)
    ensures IsCompletedRun(grants, curriculum, k)
  {
    k := 0;
    while k < |curriculum| && TierDone(grants, curriculum[k])
      invariant k <= |curriculum|
      invariant forall j :: 0 <= j < k ==> TierDone(grants, curriculum[j])
      decreases |curriculum| - k
    {
      k := k + 1;
    }
  }

  /** The walk from tier `t`, entered with the belt of the first `t` tiers,
      ends with the belt of the completed run. */
  lemma {:induction false} WalkTiersReachesRun(grants: seq<Grant>, curriculum: Curriculum, t: nat, k: nat)
    requires IsCompletedRun(grants, curriculum, k)
    requires t <= k
    ensures WalkTiers(grants, curriculum, t, LastNonEmpty(curriculum[..t])) == LastNonEmpty(curriculum[..k])
    decreases |curriculum| - t
  {
    if t == |curriculum| {
    } else {
      var current := LastNonEmpty(curriculum[..t]);
      var w := WalkTier(grants, curriculum[t], 0, current);
      if t == k {
        assert !TierDone(grants, curriculum[t]);
        assert w.Halted?;
      } else {
        assert TierDone(grants, curriculum[t]);
        assert curriculum[..t + 1][..t] == curriculum[..t];
        assert w.belt == LastNonEmpty(curriculum[..t + 1]);
        WalkTiersReachesRun(grants, curriculum, t + 1, k);
      }
    }
  }

  /** The belt is the last non-empty tier of the completed run: a team must
      hold every skill of every tier up to it, and a missing skill stops the
      advance whatever later tiers hold. */
  lemma BeltIsLastCompletedTier(grants: seq<Grant>, curriculum: Curriculum, k: nat)
    requires IsCompletedRun(grants, curriculum, k)
    ensures Belt(grants, curriculum) == LastNonEmpty(curriculum[..k])
  {
    assert curriculum[..0] == [];
    WalkTiersReachesRun(grants, curriculum, 0, k);
  }

  /** A team without grants is white, whatever the curriculum. */
  lemma BeltOfNoGrants(curriculum: Curriculum)
    ensures Belt([], curriculum) == InitialBelt
  {
    var k := CompletedRunExists([], curriculum);
    BeltIsLastCompletedTier([], curriculum, k);
    NoGrantsRunIsEmpty(curriculum[..k]);
  }

  /** Without grants only empty tiers are done. */
  lemma {:induction false} NoGrantsRunIsEmpty(tiers: seq<Tier>)
    requires forall j :: 0 <= j < |tiers| ==> TierDone([], tiers[j])
    ensures LastNonEmpty(tiers) == InitialBelt
  {
    if |tiers| > 0 {
      assert TierDone([], tiers[|tiers| - 1]);
      if |tiers[|tiers| - 1].skills| > 0 {
        NonEmptyTierNeedsGrants(tiers[|tiers| - 1]);
        assert false;
      }
      NoGrantsRunIsEmpty(tiers[..|tiers| - 1]);
    }
  }

  /** A tier that requires a skill is never done without grants. */
  lemma NonEmptyTierNeedsGrants(tier: Tier)
    requires |tier.skills| > 0
    ensures !TierDone([], tier)
  {
    assert !HasSkill([], tier.skills[0]);
  }

  /** The belt depends only on which names are granted: reordering or
      duplicating grants does not change it. */
  lemma BeltDependsOnlyOnNames(g1: seq<Grant>, g2: seq<Grant>, curriculum: Curriculum)
    requires Names(g1) == Names(g2)
    ensures Belt(g1, curriculum) == Belt(g2, curriculum)
  {
    var k := CompletedRunExists(g1, curriculum);
    forall n
      ensures HasSkill(g1, n) <==> HasSkill(g2, n)
    {
      assert HasSkill(g1, n) <==> n in Names(g1);
      assert HasSkill(g2, n) <==> n in Names(g2);
    }
    assert IsCompletedRun(g2, curriculum, k);
    BeltIsLastCompletedTier(g1, curriculum, k);
    BeltIsLastCompletedTier(g2, curriculum, k);
  }

  /** Tiers after one the team has not completed play no part in its belt. */
  lemma BeltIgnoresTiersAfterGap(grants: seq<Grant>, curriculum: Curriculum, gap: nat)
    requires gap < |curriculum|
    requires !TierDone(grants, curriculum[gap])
    ensures Belt(grants, curriculum) == Belt(grants, curriculum[..gap])
  {
    var k := CompletedRunExists(grants, curriculum);
    assert k <= gap;
    var prefix := curriculum[..gap];
    assert IsCompletedRun(grants, prefix, k);
    assert prefix[..k] == curriculum[..k];
    BeltIsLastCompletedTier(grants, curriculum, k);
    BeltIsLastCompletedTier(grants, prefix, k);
  }

  /** A team holding every skill of the curriculum wears its last non-empty belt. */
  lemma BeltOfFullCurriculum(grants: seq<Grant>, curriculum: Curriculum)
    requires forall j :: 0 <= j < |curriculum| ==> TierDone(grants, curriculum[j])
    ensures Belt(grants, curriculum) == LastNonEmpty(curriculum)
  {
    assert curriculum[..|curriculum|] == curriculum;
    BeltIsLastCompletedTier(grants, curriculum, |curriculum|);
  }
}

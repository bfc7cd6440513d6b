/** What can happen to a progress record that starts from the initial state
    and is only ever changed by the completion transition, with the catalog
    as it stands: the XP always equals the rewards of the completed missions,
    only catalog badges are held, the level never passes 3, and the level-5
    badge is never awarded. */
module Reachability {
  import opened Types
  import opened Catalog
  import opened Progress

  /** The rewards of the catalog missions whose id is in `done`. */
  function EarnedXp(catalog: seq<Mission>, done: seq<string>): int
  {
    if catalog == [] then 0
    else (if catalog[0].id in done then catalog[0].xpReward else 0) + EarnedXp(catalog[1..], done)
  }

  /** The invariant every reachable record satisfies. */
  predicate Consistent(s: UserState)
  {
    NoDuplicates(s.completedMissions)
    && (forall id :: id in s.completedMissions ==> id in MissionIds(Missions))
    && s.currentXp == EarnedXp(Missions, s.completedMissions)
    && 1 <= s.level <= |LevelThresholds|
    && LevelThresholds[s.level - 1] <= s.currentXp
    && NoDuplicates(s.unlockedBadges)
    && (forall b :: b in s.unlockedBadges ==> b in BadgeIds(Badges))
    && ("b003" in s.unlockedBadges ==> s.level >= 5)
  }

  /** The record after completing the given ids one after another. */
  function Run(s: UserState, ids: seq<string>): UserState
    decreases |ids|
  {
    if ids == [] then s else Run(CompleteMission(s, ids[0]), ids[1..])
  }

  /** Recording an id that no catalog mission has does not change the XP earned. */
  lemma {:induction false} EarnedXpIgnoresOtherIds(catalog: seq<Mission>, done: seq<string>, id: string)
    requires id !in MissionIds(catalog)
    ensures EarnedXp(catalog, done + [id]) == EarnedXp(catalog, done)
  {
    if catalog != [] {
      assert MissionIds(catalog[1..]) == MissionIds(catalog)[1..];
      EarnedXpIgnoresOtherIds(catalog[1..], done, id);
    }
  }

  /** Recording a new catalog id adds exactly that mission's reward, when
      the catalog ids are distinct. */
  lemma {:induction false} EarnedXpAppend(catalog: seq<Mission>, done: seq<string>, m: Mission)
    requires NoDuplicates(MissionIds(catalog)) && m in catalog && m.id !in done
    ensures EarnedXp(catalog, done + [m.id]) == EarnedXp(catalog, done) + m.xpReward
  {
    var rest := catalog[1..];
    assert MissionIds(rest) == MissionIds(catalog)[1..];
    if catalog[0] == m {
      assert m.id !in MissionIds(rest) by {
        forall i | 0 <= i < |rest| ensures MissionIds(rest)[i] != m.id {
          assert MissionIds(catalog)[0] != MissionIds(catalog)[i + 1];
        }
      }
      EarnedXpIgnoresOtherIds(rest, done, m.id);
    } else {
      assert catalog[0].id != m.id by {
        var k :| 0 <= k < |catalog| && catalog[k] == m;
        assert MissionIds(catalog)[0] != MissionIds(catalog)[k];
      }
      EarnedXpAppend(rest, done, m);
    }
  }

  /** With rewards that are not negative, the XP earned lies between 0 and
      the sum of all rewards. */
  lemma {:induction false} EarnedXpBounds(catalog: seq<Mission>, done: seq<string>)
    requires forall m :: m in catalog ==> m.xpReward >= 0
    ensures 0 <= EarnedXp(catalog, done) <= TotalReward(catalog)
  {
    if catalog != [] {
      EarnedXpBounds(catalog[1..], done);
    }
  }

  lemma InitialConsistent()
    ensures Consistent(InitialState)
  {
    assert Missions[1..] == [M002, M003];
    assert Missions[1..][1..] == [M003];
    assert EarnedXp([M003], []) == 0 by { assert [M003][1..] == []; }
  }

  /** The completion transition keeps the invariant. */
  lemma ConsistentPreserved(s: UserState, missionId: string)
    requires Consistent(s)
    ensures Consistent(CompleteMission(s, missionId))
  {
    if CompleteMission(s, missionId) != s {
      var m := FindMission(Missions, missionId).value;
      CompleteIsRewarded(s, m);
      RewardedConsistent(s, m);
    }
  }

  /** Rewarding a catalog mission not yet completed keeps the invariant. */
  lemma RewardedConsistent(s: UserState, m: Mission)
    requires Consistent(s) && FindMission(Missions, m.id) == Some(m) && m.id !in s.completedMissions
    ensures Consistent(Rewarded(s, m.id, m.xpReward))
  {
    RewardKeepsIds(s, m);
    RewardKeepsXp(s, m);
    RewardKeepsLevelAndBadges(s, m.id, m.xpReward);
    RewardKeepsBadgeIds(s.unlockedBadges, m.id, NextLevel(s.level, s.currentXp + m.xpReward));
  }

  /** The badge rules only ever award badges of the badge catalog. */
  lemma RewardKeepsBadgeIds(badges: seq<string>, missionId: string, level: int)
    requires forall b :: b in badges ==> b in BadgeIds(Badges)
    ensures forall b :: b in ApplyRules(BadgeRules, badges, missionId, level) ==> b in BadgeIds(Badges)
  {
    BadgeCatalogFacts();
    ApplyRulesExtends(BadgeRules, badges, missionId, level);
    EarnedBadgesOfTable(missionId, level);
  }

  /** A reward that is not negative keeps the level inside the table and
      reached by the XP, and keeps the badge list free of repeats with b003
      only at level 5. */
  lemma RewardKeepsLevelAndBadges(s: UserState, missionId: string, reward: int)
    requires 1 <= s.level <= |LevelThresholds| && LevelThresholds[s.level - 1] <= s.currentXp
    requires NoDuplicates(s.unlockedBadges) && ("b003" in s.unlockedBadges ==> s.level >= 5)
    requires reward >= 0
    ensures var t := Rewarded(s, missionId, reward);
      && t.completedMissions == s.completedMissions + [missionId]
      && t.currentXp == s.currentXp + reward
      && 1 <= t.level <= |LevelThresholds| && LevelThresholds[t.level - 1] <= t.currentXp
      && NoDuplicates(t.unlockedBadges) && ("b003" in t.unlockedBadges ==> t.level >= 5)
  {
    var newXp := s.currentXp + reward;
    LevelStaysReached(s.level, s.currentXp, newXp);
    BadgesStayConsistent(s.unlockedBadges, missionId, s.level, NextLevel(s.level, newXp));
  }

  /** Recording a new catalog id keeps the completed list free of repeats and
      made of catalog ids. */
  lemma RewardKeepsIds(s: UserState, m: Mission)
    requires Consistent(s) && FindMission(Missions, m.id) == Some(m) && m.id !in s.completedMissions
    ensures NoDuplicates(s.completedMissions + [m.id])
    ensures forall id :: id in s.completedMissions + [m.id] ==> id in MissionIds(Missions)
  {
    AppendFresh(s.completedMissions, m.id);
    var k :| 0 <= k < |Missions| && Missions[k] == m;
    assert MissionIds(Missions)[k] == m.id;
  }

  /** Recording a new catalog id adds its reward to the XP earned. */
  lemma RewardKeepsXp(s: UserState, m: Mission)
    requires Consistent(s) && FindMission(Missions, m.id) == Some(m) && m.id !in s.completedMissions
    ensures EarnedXp(Missions, s.completedMissions + [m.id]) == s.currentXp + m.xpReward
    ensures m.xpReward >= 0
  {
    MissionCatalogFacts();
    EarnedXpAppend(Missions, s.completedMissions, m);
  }

  /** The single-step level-up keeps the level inside the table and never
      above what the XP has reached. */
  lemma LevelStaysReached(level: int, xp: int, newXp: int)
    requires 1 <= level <= |LevelThresholds| && LevelThresholds[level - 1] <= xp <= newXp
    ensures 1 <= NextLevel(level, newXp) <= |LevelThresholds|
    ensures LevelThresholds[NextLevel(level, newXp) - 1] <= newXp
  {
  }

  /** The badge rules keep the badge list free of repeats, and b003 only
      comes with level 5. */
  lemma BadgesStayConsistent(badges: seq<string>, missionId: string, oldLevel: int, newLevel: int)
    requires NoDuplicates(badges) && ("b003" in badges ==> oldLevel >= 5) && oldLevel <= newLevel
    ensures NoDuplicates(ApplyRules(BadgeRules, badges, missionId, newLevel))
    ensures "b003" in ApplyRules(BadgeRules, badges, missionId, newLevel) ==> newLevel >= 5
  {
    ApplyRulesExtends(BadgeRules, badges, missionId, newLevel);
    EarnedBadgesOfTable(missionId, newLevel);
  }

  /** A consistent record has at most 550 XP, is at most at level 3 and
      does not hold b003. */
  lemma ConsistentBounds(s: UserState)
    requires Consistent(s)
    ensures s.currentXp <= TotalReward(Missions) == 550
    ensures s.level <= 3
    ensures "b003" !in s.unlockedBadges
  {
    MissionCatalogFacts();
    EarnedXpBounds(Missions, s.completedMissions);
    TotalRewardBelowLevelThree();
    ThresholdsIncreasing();
  }

  /** One completion never takes anything away. */
  lemma StepKeepsProgress(s: UserState, missionId: string)
    ensures s.currentXp <= CompleteMission(s, missionId).currentXp
    ensures s.level <= CompleteMission(s, missionId).level
    ensures s.completedMissions <= CompleteMission(s, missionId).completedMissions
    ensures s.unlockedBadges <= CompleteMission(s, missionId).unlockedBadges
  {
    CompletionLevelBounds(s, missionId);
    if CompleteMission(s, missionId) != s {
      var m := FindMission(Missions, missionId).value;
      CompletionEffect(s, m);
      MissionCatalogFacts();
    }
  }

  /** Along any sequence of completions the record stays consistent, XP and
      level never fall, and earlier completions and badges stay in place. */
  lemma {:induction false} RunKeepsProgress(s: UserState, ids: seq<string>)
    requires Consistent(s)
    ensures Consistent(Run(s, ids))
    ensures s.currentXp <= Run(s, ids).currentXp && s.level <= Run(s, ids).level
    ensures s.completedMissions <= Run(s, ids).completedMissions
    ensures s.unlockedBadges <= Run(s, ids).unlockedBadges
    decreases |ids|
  {
    if ids != [] {
      var t := CompleteMission(s, ids[0]);
      ConsistentPreserved(s, ids[0]);
      StepKeepsProgress(s, ids[0]);
      RunKeepsProgress(t, ids[1..]);
    }
  }

  /** Whatever missions are completed, in whatever order and with whatever
      repetitions, a record that starts from the initial state never passes
      level 3 and never unlocks b003. */
  lemma ReachableFromStart(ids: seq<string>)
    ensures Consistent(Run(InitialState, ids))
    ensures Run(InitialState, ids).level <= 3
    ensures Run(InitialState, ids).currentXp <= 550
    ensures "b003" !in Run(InitialState, ids).unlockedBadges
  {
    InitialConsistent();
    RunKeepsProgress(InitialState, ids);
    ConsistentBounds(Run(InitialState, ids));
  }
}

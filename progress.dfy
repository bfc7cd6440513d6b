/** The progress engine of App.tsx: the mission-completion transition, the
    status projection, the "next mission" choice and the XP threshold shown
    for the next level, with the lemmas that state what they guarantee. */
module Progress {
  import opened Types
  import opened Catalog

  // ---------------------------------------------------------------------
  // Lookups and projections
  // ---------------------------------------------------------------------

  /** The catalog entry with the given id, if there is one. */
  function FindMission(catalog: seq<Mission>, id: string): (r: Option<Mission>)
    ensures r.None? <==> forall i :: 0 <= i < |catalog| ==> catalog[i].id != id
    ensures r.Some? ==> r.value in catalog && r.value.id == id
  {
    if catalog == [] then None
    else if catalog[0].id == id then Some(catalog[0])
    else FindMission(catalog[1..], id)
  }

  /** Completed as soon as the id is recorded, whatever the level; otherwise
      Active exactly when the level requirement is met. */
  function GetMissionStatus(state: UserState, mission: Mission): (r: MissionStatus)
    ensures r == Completed <==> mission.id in state.completedMissions
    ensures r == Active <==> mission.id !in state.completedMissions && mission.requiredLevel <= state.level
    ensures r == Locked <==> mission.id !in state.completedMissions && mission.requiredLevel > state.level
  {
    if mission.id in state.completedMissions then Completed
    else if mission.requiredLevel <= state.level then Active
    else Locked
  }

  /** The dashboard's "next mission": the first catalog entry that is not
      completed and whose level requirement is met. */
  function NextMission(catalog: seq<Mission>, state: UserState): (r: Option<Mission>)
    ensures r.None? <==> forall i :: 0 <= i < |catalog| ==> GetMissionStatus(state, catalog[i]) != Active
    ensures r.Some? ==> r.value in catalog && GetMissionStatus(state, r.value) == Active
  {
    if catalog == [] then None
    else if catalog[0].id !in state.completedMissions && catalog[0].requiredLevel <= state.level then Some(catalog[0])
    else NextMission(catalog[1..], state)
  }

  /** `LEVEL_THRESHOLDS[level]` used as a condition: there is a threshold only
      when the index is inside the table and the entry is not 0. */
  function ThresholdFor(level: int): (r: Option<int>)
    ensures r.Some? <==> 1 <= level <= 5
    ensures r.Some? ==> r.value == LevelThresholds[level] && r.value > 0
  {
    if 0 <= level < |LevelThresholds| && LevelThresholds[level] != 0 then Some(LevelThresholds[level]) else None
  }

  /** The XP figure shown for the next level: the threshold, or 9999 when
      there is none. */
  function NextLevelXp(level: int): int
  {
    match ThresholdFor(level)
    case Some(t) => t
    case None => 9999
  }

  /** The single-step level-up check: at most one level per completion. */
  function NextLevel(level: int, newXp: int): (r: int)
    ensures r == level || r == level + 1
    ensures r == level + 1 <==> 1 <= level <= 5 && newXp >= LevelThresholds[level]
  {
    match ThresholdFor(level)
    case Some(t) => if newXp >= t then level + 1 else level
    case None => level
  }

  // ---------------------------------------------------------------------
  // Badge unlock rules, as a table
  // ---------------------------------------------------------------------

  datatype Trigger = OnMission(missionId: string) | OnLevel(minLevel: int)

  datatype BadgeRule = BadgeRule(trigger: Trigger, badgeId: string)

  /** The three unlock rules of the transition, in the order they are tried.
      No rule names b004. */
  const BadgeRules: seq<BadgeRule> := [
    BadgeRule(OnMission("m001"), "b001"),
    BadgeRule(OnMission("m002"), "b002"),
    BadgeRule(OnLevel(5), "b003")
  ]

  predicate Fires(t: Trigger, missionId: string, level: int)
  {
    match t
    case OnMission(id) => id == missionId
    case OnLevel(n) => level >= n
  }

  /** Tries each rule in turn; a rule that fires appends its badge unless
      the badge is already held. */
  function ApplyRules(rules: seq<BadgeRule>, badges: seq<string>, missionId: string, level: int): seq<string>
  {
    if rules == [] then badges
    else
      var r := rules[0];
      var next := if Fires(r.trigger, missionId, level) && r.badgeId !in badges then badges + [r.badgeId] else badges;
      ApplyRules(rules[1..], next, missionId, level)
  }

  /** The badges of the rules that fire for this completion. */
  function EarnedBadges(rules: seq<BadgeRule>, missionId: string, level: int): set<string>
  {
    if rules == [] then {}
    else (if Fires(rules[0].trigger, missionId, level) then {rules[0].badgeId} else {})
         + EarnedBadges(rules[1..], missionId, level)
  }

  // ---------------------------------------------------------------------
  // The completion transition
  // ---------------------------------------------------------------------

  /** The new record once a mission worth `reward` is accepted as new. */
  function Rewarded(prev: UserState, missionId: string, reward: int): UserState
  {
    var newXp := prev.currentXp + reward;
    var newLevel := NextLevel(prev.level, newXp);
    prev.(currentXp := newXp,
          level := newLevel,
          completedMissions := prev.completedMissions + [missionId],
          unlockedBadges := ApplyRules(BadgeRules, prev.unlockedBadges, missionId, newLevel))
  }

  /** The whole transition: an unknown or already completed id leaves the
      record as it is. */
  function CompleteMission(state: UserState, missionId: string): UserState
  {
    match FindMission(Missions, missionId)
    case None => state
    case Some(m) => if missionId in state.completedMissions then state else Rewarded(state, missionId, m.xpReward)
  }

  /** The state updater, step by step: add the reward, check one threshold,
      append the id, then try the three badge conditions in order. */
  method UpdateOnCompletion(prev: UserState, missionId: string, xpReward: int) returns (next: UserState)
    ensures next == Rewarded(prev, missionId, xpReward)
  {
    var newXp := prev.currentXp + xpReward;
    var newLevel := prev.level;
    var threshold := ThresholdFor(prev.level);
    if threshold.Some? && newXp >= threshold.value {
      newLevel := newLevel + 1;
    }
    var newCompleted := prev.completedMissions + [missionId];
    var newBadges := prev.unlockedBadges;
    ghost var rules := BadgeRules;
    ghost var before := newBadges;
    if missionId == "m001" && "b001" !in newBadges {
      newBadges := newBadges + ["b001"];
    }
    assert ApplyRules(rules, before, missionId, newLevel) == ApplyRules(rules[1..], newBadges, missionId, newLevel);
    rules, before := rules[1..], newBadges;
    if missionId == "m002" && "b002" !in newBadges {
      newBadges := newBadges + ["b002"];
    }
    assert ApplyRules(rules, before, missionId, newLevel) == ApplyRules(rules[1..], newBadges, missionId, newLevel);
    rules, before := rules[1..], newBadges;
    if newLevel >= 5 && "b003" !in newBadges {
      newBadges := newBadges + ["b003"];
    }
    assert ApplyRules(rules, before, missionId, newLevel) == ApplyRules(rules[1..], newBadges, missionId, newLevel);
    assert rules[1..] == [];
    next := prev.(currentXp := newXp, level := newLevel, completedMissions := newCompleted, unlockedBadges := newBadges);
  }

  /** The application shell's hold on the progress record. */
  class App {
    var gameState: UserState

    /** `restored` is the saved snapshot or the initial record; reading
        local storage is not modelled. */
    constructor (restored: UserState)
      ensures gameState == restored
    {
      gameState := restored;
    }

    /** Completion handler: the guard reads the current record, then the
        updater replaces it. */
    method HandleMissionComplete(missionId: string)
      modifies this
      ensures gameState == CompleteMission(old(gameState), missionId)
    {
      var mission := FindMission(Missions, missionId);
      if mission.None? || missionId in gameState.completedMissions {
        return;
      }
      gameState := UpdateOnCompletion(gameState, missionId, mission.value.xpReward);
    }
  }

  // ---------------------------------------------------------------------
  // What the transition guarantees
  // ---------------------------------------------------------------------

  /** Running the rule table only appends, never repeats a badge, and adds
      exactly the badges of the rules that fire. */
  lemma {:induction false} ApplyRulesExtends(rules: seq<BadgeRule>, badges: seq<string>, missionId: string, level: int)
    ensures badges <= ApplyRules(rules, badges, missionId, level)
    ensures NoDuplicates(badges) ==> NoDuplicates(ApplyRules(rules, badges, missionId, level))
    ensures forall b :: b in ApplyRules(rules, badges, missionId, level) <==>
      b in badges || b in EarnedBadges(rules, missionId, level)
  {
    if rules != [] {
      var x := rules[0];
      var next := if Fires(x.trigger, missionId, level) && x.badgeId !in badges then badges + [x.badgeId] else badges;
      ApplyRulesExtends(rules[1..], next, missionId, level);
      if NoDuplicates(badges) && next != badges {
        AppendFresh(badges, x.badgeId);
      }
    }
  }

  /** Which badges the table can award: b001 for m001, b002 for m002, b003
      from level 5 on, and never b004. */
  lemma EarnedBadgesOfTable(missionId: string, level: int)
    ensures EarnedBadges(BadgeRules, missionId, level) ==
      (if missionId == "m001" then {"b001"} else {}) +
      (if missionId == "m002" then {"b002"} else {}) +
      (if level >= 5 then {"b003"} else {})
    ensures "b004" !in EarnedBadges(BadgeRules, missionId, level)
  {
    var r1 := BadgeRules[1..];
    var r2 := r1[1..];
    assert r1 == [BadgeRule(OnMission("m002"), "b002"), BadgeRule(OnLevel(5), "b003")];
    assert r2 == [BadgeRule(OnLevel(5), "b003")];
    assert r2[1..] == [];
    assert EarnedBadges(r2, missionId, level) == (if level >= 5 then {"b003"} else {});
    assert EarnedBadges(r1, missionId, level) ==
      (if missionId == "m002" then {"b002"} else {}) + EarnedBadges(r2, missionId, level);
  }

  /** The table applied to a badge list is the three conditional appends of
      the transition, in the order b001, b002, b003, each skipped when the
      badge is already held. */
  lemma BadgeRulesInOrder(badges: seq<string>, missionId: string, level: int)
    ensures ApplyRules(BadgeRules, badges, missionId, level) ==
      badges +
      (if missionId == "m001" && "b001" !in badges then ["b001"] else []) +
      (if missionId == "m002" && "b002" !in badges then ["b002"] else []) +
      (if level >= 5 && "b003" !in badges then ["b003"] else [])
  {
    var r1 := BadgeRules[1..];
    var r2 := r1[1..];
    assert r1 == [BadgeRule(OnMission("m002"), "b002"), BadgeRule(OnLevel(5), "b003")];
    assert r2 == [BadgeRule(OnLevel(5), "b003")];
    assert r2[1..] == [];
    var b1 := if missionId == "m001" && "b001" !in badges then badges + ["b001"] else badges;
    var b2 := if missionId == "m002" && "b002" !in b1 then b1 + ["b002"] else b1;
    var b3 := if level >= 5 && "b003" !in b2 then b2 + ["b003"] else b2;
    assert "b002" in b1 <==> "b002" in badges;
    assert "b003" in b2 <==> "b003" in badges;
    assert ApplyRules(BadgeRules, badges, missionId, level) == ApplyRules(r1, b1, missionId, level);
    assert ApplyRules(r1, b1, missionId, level) == ApplyRules(r2, b2, missionId, level);
    assert ApplyRules(r2, b2, missionId, level) == b3;
    assert b1 == badges + (if missionId == "m001" && "b001" !in badges then ["b001"] else []);
  }

  /** An unknown id, or one already completed, changes nothing. */
  lemma CompleteIsNoOp(s: UserState, missionId: string)
    requires FindMission(Missions, missionId).None? || missionId in s.completedMissions
    ensures CompleteMission(s, missionId) == s
  {
  }

  /** Completing the same mission twice in a row is completing it once. */
  lemma CompleteIsIdempotent(s: UserState, missionId: string)
    ensures CompleteMission(CompleteMission(s, missionId), missionId) == CompleteMission(s, missionId)
  {
    var t := CompleteMission(s, missionId);
    if FindMission(Missions, missionId).Some? {
      assert missionId in t.completedMissions;
    }
  }

  /** A real completion: the reward is added exactly once, the id goes to the
      end of the completed list, the name is kept, the level goes up by one
      exactly when the threshold of the current level exists and is reached,
      and the badges grow by those of the firing rules. */
  lemma CompletionEffect(s: UserState, m: Mission)
    requires FindMission(Missions, m.id) == Some(m) && m.id !in s.completedMissions
    ensures CompleteMission(s, m.id).currentXp == s.currentXp + m.xpReward
    ensures CompleteMission(s, m.id).username == s.username
    ensures CompleteMission(s, m.id).completedMissions == s.completedMissions + [m.id]
    ensures CompleteMission(s, m.id).level == s.level || CompleteMission(s, m.id).level == s.level + 1
    ensures CompleteMission(s, m.id).level == s.level + 1 <==>
      1 <= s.level <= 5 && s.currentXp + m.xpReward >= LevelThresholds[s.level]
    ensures s.unlockedBadges <= CompleteMission(s, m.id).unlockedBadges
    ensures forall b :: b in CompleteMission(s, m.id).unlockedBadges <==>
      b in s.unlockedBadges || b in EarnedBadges(BadgeRules, m.id, CompleteMission(s, m.id).level)
  {
    CompleteIsRewarded(s, m);
    RewardedEffect(s, m.id, m.xpReward);
  }

  /** A catalog mission not yet completed is rewarded with its own XP. */
  lemma CompleteIsRewarded(s: UserState, m: Mission)
    requires FindMission(Missions, m.id) == Some(m) && m.id !in s.completedMissions
    ensures CompleteMission(s, m.id) == Rewarded(s, m.id, m.xpReward)
  {
  }

  /** What the reward step does to each field of the record. */
  lemma RewardedEffect(s: UserState, missionId: string, reward: int)
    ensures Rewarded(s, missionId, reward).currentXp == s.currentXp + reward
    ensures Rewarded(s, missionId, reward).username == s.username
    ensures Rewarded(s, missionId, reward).completedMissions == s.completedMissions + [missionId]
    ensures Rewarded(s, missionId, reward).level == s.level || Rewarded(s, missionId, reward).level == s.level + 1
    ensures Rewarded(s, missionId, reward).level == s.level + 1 <==>
      1 <= s.level <= 5 && s.currentXp + reward >= LevelThresholds[s.level]
    ensures s.unlockedBadges <= Rewarded(s, missionId, reward).unlockedBadges
    ensures forall b :: b in Rewarded(s, missionId, reward).unlockedBadges <==>
      b in s.unlockedBadges || b in EarnedBadges(BadgeRules, missionId, Rewarded(s, missionId, reward).level)
  {
    ApplyRulesExtends(BadgeRules, s.unlockedBadges, missionId, Rewarded(s, missionId, reward).level);
  }

  /** Neither list acquires a repeated id. */
  lemma CompletionKeepsIdsDistinct(s: UserState, missionId: string)
    requires NoDuplicates(s.completedMissions) && NoDuplicates(s.unlockedBadges)
    ensures NoDuplicates(CompleteMission(s, missionId).completedMissions)
    ensures NoDuplicates(CompleteMission(s, missionId).unlockedBadges)
  {
    var t := CompleteMission(s, missionId);
    if t != s {
      AppendFresh(s.completedMissions, missionId);
      ApplyRulesExtends(BadgeRules, s.unlockedBadges, missionId, t.level);
    }
  }

  /** The level never falls, rises by at most one, and a level inside the
      table (at most 6) stays inside it. */
  lemma CompletionLevelBounds(s: UserState, missionId: string)
    ensures s.level <= CompleteMission(s, missionId).level <= s.level + 1
    ensures s.level <= |LevelThresholds| ==> CompleteMission(s, missionId).level <= |LevelThresholds|
  {
  }

  /** Statuses only move forward, and the completed mission is Completed. */
  lemma StatusNeverRegresses(s: UserState, missionId: string, other: Mission)
    ensures GetMissionStatus(s, other) == Completed ==> GetMissionStatus(CompleteMission(s, missionId), other) == Completed
    ensures GetMissionStatus(s, other) == Active ==> GetMissionStatus(CompleteMission(s, missionId), other) != Locked
    ensures FindMission(Missions, missionId) == Some(other) ==> GetMissionStatus(CompleteMission(s, missionId), other) == Completed
  {
    CompletionLevelBounds(s, missionId);
  }

  /** The next mission is the first Active entry of the catalog. */
  lemma {:induction false} NextMissionIsFirstActive(catalog: seq<Mission>, state: UserState, k: nat)
    requires k < |catalog| && GetMissionStatus(state, catalog[k]) == Active
    requires forall i :: 0 <= i < k ==> GetMissionStatus(state, catalog[i]) != Active
    ensures NextMission(catalog, state) == Some(catalog[k])
  {
    if k > 0 {
      NextMissionIsFirstActive(catalog[1..], state, k - 1);
    }
  }

  /** The XP shown for the next level is the table entry for levels 1 to 5
      and 9999 for every other level. */
  lemma NextLevelXpShown(level: int)
    ensures NextLevelXp(level) == if 1 <= level <= 5 then LevelThresholds[level] else 9999
  {
  }

  /** From the initial record, completing m001 reaches level 2 with 100 XP
      and the first badge. */
  lemma FirstMissionFromStart()
    ensures CompleteMission(InitialState, "m001") == UserState(2, 100, ["m001"], ["b001"], "Guest_Engineer")
  {
    assert FindMission(Missions, "m001") == Some(M001);
    BadgeRulesInOrder([], "m001", 2);
  }

  /** No cascade: at level 1 with 250 XP, completing m001 brings 350 XP,
      past both the level-1 (100) and the level-2 (300) thresholds, yet the
      level only becomes 2. */
  lemma LevelUpDoesNotCascade(username: string)
    ensures CompleteMission(UserState(1, 250, [], [], username), "m001") ==
      UserState(2, 350, ["m001"], ["b001"], username)
  {
    assert FindMission(Missions, "m001") == Some(M001);
    BadgeRulesInOrder([], "m001", 2);
  }
}

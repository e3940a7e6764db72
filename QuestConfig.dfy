/** Quest rules: the quest catalogue, the XP-to-level arithmetic, per-quest
    progress and unlock dependencies (src/quests/questConfig.js). */
module QuestConfig {
  import opened Common

  /** `quest.type`; every string other than the three known ones is `OtherKind`. */
  datatype QuestKind = UniqueVisits | CategoryVisits | OnlyOnMonadVisits | OtherKind(name: string)
  {
    predicate Known() { !OtherKind? }
  }

  /** One entry of `questDefinitions`. `category` is `""` when the quest has
      none (the source reads it as `quest.category || ''`). */
  datatype Quest = Quest(
    id: string,
    title: string,
    description: string,
    kind: QuestKind,
    category: string,
    target: int,
    xpReward: int,
    autoUnlock: bool,
    unlockRequires: Option<seq<string>>)

  /** The part of the quest store the rules read. */
  datatype QuestSnapshot = QuestSnapshot(
    visitedDapps: seq<string>,
    categoryVisits: map<string, seq<string>>,
    onlyOnMonadVisited: seq<string>,
    completedQuests: map<string, bool>)

  /** The titles and descriptions the quest panel shows. */
  const FirstStepsTitle: string := "First Footsteps"
  const FirstStepsText: string := "Visit 3 unique dApps inside the museum."
  const CuratorTourTitle: string := "Curator Tour"
  const CuratorTourText: string := "Explore 8 unique dApps to map the main gallery."
  const DefiDiscoveryTitle: string := "DeFi Discovery"
  const DefiDiscoveryText: string := "Visit 4 DeFi dApps."
  const AmbassadorTitle: string := "Monad Ambassador"
  const AmbassadorText: string := "Find 5 projects that are only on Monad."

  const QuestDefinitions: seq<Quest> := [
    Quest("first-steps", FirstStepsTitle, FirstStepsText,
          UniqueVisits, "", 3, 80, true, None),
    Quest("curator-tour", CuratorTourTitle, CuratorTourText,
          UniqueVisits, "", 8, 120, false, Some(["first-steps"])),
    Quest("defi-discovery", DefiDiscoveryTitle, DefiDiscoveryText,
          CategoryVisits, "DeFi", 4, 140, false, Some(["first-steps"])),
    Quest("monad-ambassador", AmbassadorTitle, AmbassadorText,
          OnlyOnMonadVisits, "", 5, 180, false, Some(["curator-tour"]))
  ]

  /** The catalogue's ids are distinct and every quest has a positive target. */
  lemma DefinitionsWellFormed()
    ensures forall i, j :: 0 <= i < j < |QuestDefinitions| ==> QuestDefinitions[i].id != QuestDefinitions[j].id
    ensures forall i :: 0 <= i < |QuestDefinitions| ==> QuestDefinitions[i].target > 0 && QuestDefinitions[i].kind.Known()
  {
  }

  const LevelXpStep: int := 150

  /** `xpForLevel(level)`: the XP at which `level` starts. */
  function XpForLevel(level: int): int {
    LevelXpStep * (level - 1)
  }

  /** `calculateLevelFromXp(xp)` = floor(xp / 150) + 1: the level whose XP band
      holds `xp`. */
  function LevelFromXp(xp: int): (level: int)
    ensures xp >= 0 ==> level >= 1
    ensures XpForLevel(level) <= xp < XpForLevel(level + 1)
  {
    xp / LevelXpStep + 1
  }

  /** The band property pins the level down: no other level's band holds `xp`. */
  lemma LevelIsUniqueBand(xp: int, level: int)
    requires XpForLevel(level) <= xp < XpForLevel(level + 1)
    ensures level == LevelFromXp(xp)
  {
  }

  /** Round trip: the first XP of a level maps back to that level. */
  lemma LevelOfLevelStart(level: int)
    ensures LevelFromXp(XpForLevel(level)) == level
  {
    LevelIsUniqueBand(XpForLevel(level), level);
  }

  /** More XP never means a lower level. */
  lemma LevelMonotone(xp1: int, xp2: int)
    requires xp1 <= xp2
    ensures LevelFromXp(xp1) <= LevelFromXp(xp2)
  {
  }

  /** `xpToNextLevel(xp)`: the XP still missing to reach the next level. */
  function XpToNextLevel(xp: int): (r: int)
    ensures 1 <= r <= LevelXpStep
    ensures xp + r == XpForLevel(LevelFromXp(xp) + 1)
  {
    var level := LevelFromXp(xp);
    LevelXpStep * level - xp
  }

  /** The list a known quest kind counts. */
  function TrackedVisits(q: Quest, s: QuestSnapshot): seq<string>
    requires q.kind.Known()
  {
    match q.kind
    case UniqueVisits => s.visitedDapps
    case CategoryVisits => if q.category in s.categoryVisits then s.categoryVisits[q.category] else []
    case OnlyOnMonadVisits => s.onlyOnMonadVisited
  }

  /** `evaluateQuestProgress(quest, state)`: the tracked count capped at the
      target for the three known kinds, 0 for any other kind. */
  function EvaluateQuestProgress(q: Quest, s: QuestSnapshot): (p: int)
    ensures !q.kind.Known() ==> p == 0
    ensures q.kind.Known() ==> p <= |TrackedVisits(q, s)| && p <= q.target
    ensures q.kind.Known() ==> (p == |TrackedVisits(q, s)| || p == q.target)
    ensures q.kind.Known() && q.target >= 0 ==> 0 <= p
    ensures q.kind.Known() ==> (p >= q.target <==> |TrackedVisits(q, s)| >= q.target)
  {
    match q.kind
    case UniqueVisits => Min(|s.visitedDapps|, q.target)
    case CategoryVisits =>
      var visited := if q.category in s.categoryVisits then s.categoryVisits[q.category] else [];
      Min(|visited|, q.target)
    case OnlyOnMonadVisits => Min(|s.onlyOnMonadVisited|, q.target)
    case OtherKind(_) => 0
  }

  function Min(a: int, b: int): int { if a <= b then a else b }

  /** `state.completedQuests?.[id]` is truthy. */
  predicate IsDone(completed: map<string, bool>, id: string) {
    id in completed && completed[id]
  }

  /** `dependencies.every((id) => state.completedQuests?.[id])` */
  predicate AllDone(deps: seq<string>, completed: map<string, bool>) {
    deps == [] || (IsDone(completed, deps[0]) && AllDone(deps[1..], completed))
  }

  lemma {:induction false} AllDoneMeansEach(deps: seq<string>, completed: map<string, bool>)
    ensures AllDone(deps, completed) <==> forall i :: 0 <= i < |deps| ==> IsDone(completed, deps[i])
  {
    if deps != [] {
      AllDoneMeansEach(deps[1..], completed);
      assert forall i :: 1 <= i < |deps| ==> deps[i] == deps[1..][i - 1];
    }
  }

  /** `isQuestUnlocked(quest, state)`. */
  predicate IsQuestUnlocked(q: Quest, completed: map<string, bool>)
  {
    q.autoUnlock || q.unlockRequires.GetOr([]) == [] || AllDone(q.unlockRequires.GetOr([]), completed)
  }

  /** The three ways a quest is unlocked, and no other. */
  lemma UnlockRule(q: Quest, completed: map<string, bool>)
    ensures q.autoUnlock ==> IsQuestUnlocked(q, completed)
    ensures q.unlockRequires.None? || q.unlockRequires == Some([]) ==> IsQuestUnlocked(q, completed)
    ensures !q.autoUnlock && q.unlockRequires.Some? && q.unlockRequires.value != [] ==>
      (IsQuestUnlocked(q, completed) <==>
        forall i :: 0 <= i < |q.unlockRequires.value| ==> IsDone(completed, q.unlockRequires.value[i]))
  {
    AllDoneMeansEach(q.unlockRequires.GetOr([]), completed);
  }

  /** Completing more quests never re-locks an unlocked quest. */
  lemma UnlockMonotone(q: Quest, before: map<string, bool>, after: map<string, bool>)
    requires forall id :: IsDone(before, id) ==> IsDone(after, id)
    requires IsQuestUnlocked(q, before)
    ensures IsQuestUnlocked(q, after)
  {
    AllDoneMeansEach(q.unlockRequires.GetOr([]), before);
    AllDoneMeansEach(q.unlockRequires.GetOr([]), after);
  }
}

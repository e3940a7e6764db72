/** The persisted quest store of src/store/questStore.jsx: visits with XP
    bonuses, quest progress and completion, legacy votes and collections,
    one-shot reward claims. */
module QuestProgress {
  import opened Common
  import opened Strings
  import opened QuestConfig

  /** `XP_GAIN` */
  const UniqueVisitXp: int := 25
  const OnlyOnMonadBonusXp: int := 15
  const NewCategoryBonusXp: int := 5

  /** The fields of a dApp that `registerVisit` reads. An `id` of `""` stands
      for a missing or falsy id, a category of `""` for a falsy category, and
      `categories == None` for `dapp.categories` being absent. */
  datatype VisitedDapp = VisitedDapp(id: string, categories: Option<seq<string>>, onlyOnMonad: bool)

  /** One `visitLog` entry; `at` is the clock reading passed in for `Date.now()`. */
  datatype VisitRecord = VisitRecord(id: string, at: int)

  /** `questProgress` of the legacy vote/collect flow. */
  datatype LegacyProgress = LegacyProgress(votes: int, collections: int, glitchUnlocked: bool, recommendationsUnlocked: bool)

  /** One element of `getQuestList()`. */
  datatype QuestView = QuestView(quest: Quest, unlocked: bool, progress: int, completed: bool, claimed: bool)

  /** `categoryVisits[key] || []` */
  function Lookup(m: map<string, seq<string>>, key: string): seq<string> {
    if key in m then m[key] else []
  }

  /** `map[key] || 0` on a map of numbers. */
  function Lookup0(m: map<string, int>, key: string): int {
    if key in m then m[key] else 0
  }

  predicate SubsetOf(a: seq<string>, b: seq<string>) {
    forall x :: x in a ==> x in b
  }

  // ---------------------------------------------------------------------
  // applyQuestProgress

  predicate DistinctIds(quests: seq<Quest>) {
    forall i, j :: 0 <= i < j < |quests| ==> quests[i].id != quests[j].id
  }

  /** One pass of `applyQuestProgress` over `quests`. `done` is the live
      `completedQuests` map: in both callers it is the very object the unlock
      check reads through the snapshot, so a quest completed earlier in the
      pass already unlocks the quests after it. */
  function ProgressPass(quests: seq<Quest>, s: QuestSnapshot, progress: map<string, int>, done: map<string, bool>)
    : (map<string, int>, map<string, bool>)
    decreases |quests|
  {
    if quests == [] then (progress, done)
    else
      var q := quests[0];
      if !IsQuestUnlocked(q, done) then ProgressPass(quests[1..], s, progress, done)
      else
        var p := EvaluateQuestProgress(q, s);
        ProgressPass(quests[1..], s, progress[q.id := p], if p >= q.target then done[q.id := true] else done)
  }

  /** `applyQuestProgress(snapshot, questProgressMap, completedQuests)`, with the
      two maps it updates in place returned as values. The unlock check reads
      `completed` as it is being updated (see `ProgressPass`). */
  method ApplyQuestProgress(s: QuestSnapshot, progressMap: map<string, int>)
    returns (progress: map<string, int>, completed: map<string, bool>)
    ensures (progress, completed) == ProgressPass(QuestDefinitions, s, progressMap, s.completedQuests)
    ensures forall id :: IsDone(s.completedQuests, id) ==> IsDone(completed, id)
    ensures ProgressInRange(progressMap) ==> ProgressInRange(progress)
  {
    PassOnlyCompletes(QuestDefinitions, s, progressMap, s.completedQuests);
    if ProgressInRange(progressMap) {
      PassKeepsRange(0, s, progressMap, s.completedQuests);
      assert QuestDefinitions[0..] == QuestDefinitions;
    }
    progress, completed := progressMap, s.completedQuests;
    var i := 0;
    while i < |QuestDefinitions|
      invariant 0 <= i <= |QuestDefinitions|
      invariant ProgressPass(QuestDefinitions[i..], s, progress, completed)
             == ProgressPass(QuestDefinitions, s, progressMap, s.completedQuests)
    {
      var quest := QuestDefinitions[i];
      assert QuestDefinitions[i..][1..] == QuestDefinitions[i + 1..];
      if IsQuestUnlocked(quest, completed) {
        var p := EvaluateQuestProgress(quest, s);
        progress := progress[quest.id := p];
        if p >= quest.target {
          completed := completed[quest.id := true];
        }
      }
      i := i + 1;
    }
  }

  /** Completion flags only ever go from false/absent to true: every flag set
      before the pass is still set, and every entry the pass changed is `true`. */
  lemma {:induction false} PassOnlyCompletes(quests: seq<Quest>, s: QuestSnapshot, progress: map<string, int>, done: map<string, bool>)
    ensures var r := ProgressPass(quests, s, progress, done);
      && done.Keys <= r.1.Keys
      && (forall id :: IsDone(done, id) ==> IsDone(r.1, id))
      && (forall id :: id in r.1 && !(id in done && r.1[id] == done[id]) ==> r.1[id])
    decreases |quests|
  {
    if quests != [] {
      var q := quests[0];
      if !IsQuestUnlocked(q, done) {
        PassOnlyCompletes(quests[1..], s, progress, done);
      } else {
        var p := EvaluateQuestProgress(q, s);
        var done' := if p >= q.target then done[q.id := true] else done;
        PassOnlyCompletes(quests[1..], s, progress[q.id := p], done');
      }
    }
  }

  /** A pass leaves alone every id that none of its quests has. */
  lemma {:induction false} PassUntouchedIds(quests: seq<Quest>, s: QuestSnapshot, progress: map<string, int>, done: map<string, bool>, id: string)
    requires forall i :: 0 <= i < |quests| ==> quests[i].id != id
    ensures var r := ProgressPass(quests, s, progress, done);
      && (id in r.0 <==> id in progress) && (id in progress ==> r.0[id] == progress[id])
      && (id in r.1 <==> id in done) && (id in done ==> r.1[id] == done[id])
    decreases |quests|
  {
    if quests != [] {
      var q := quests[0];
      if !IsQuestUnlocked(q, done) {
        PassUntouchedIds(quests[1..], s, progress, done, id);
      } else {
        var p := EvaluateQuestProgress(q, s);
        var done' := if p >= q.target then done[q.id := true] else done;
        PassUntouchedIds(quests[1..], s, progress[q.id := p], done', id);
      }
    }
  }

  /** Progress is written only for unlocked quests: a quest that is still
      locked once the pass is over had neither its progress nor its completion
      touched. */
  lemma {:induction false} PassSkipsLocked(quests: seq<Quest>, s: QuestSnapshot, progress: map<string, int>, done: map<string, bool>, k: nat)
    requires DistinctIds(quests) && k < |quests|
    requires !IsQuestUnlocked(quests[k], ProgressPass(quests, s, progress, done).1)
    ensures var r := ProgressPass(quests, s, progress, done); var id := quests[k].id;
      && (id in r.0 <==> id in progress) && (id in progress ==> r.0[id] == progress[id])
      && (id in r.1 <==> id in done) && (id in done ==> r.1[id] == done[id])
    decreases |quests|
  {
    var q := quests[0];
    var p := EvaluateQuestProgress(q, s);
    var progress' := if IsQuestUnlocked(q, done) then progress[q.id := p] else progress;
    var done' := if IsQuestUnlocked(q, done) && p >= q.target then done[q.id := true] else done;
    assert ProgressPass(quests, s, progress, done) == ProgressPass(quests[1..], s, progress', done');
    if k == 0 {
      PassOnlyCompletes(quests[1..], s, progress', done');
      if IsQuestUnlocked(q, done) {
        UnlockMonotone(q, done, ProgressPass(quests, s, progress, done).1);
        assert false;
      }
      PassUntouchedIds(quests[1..], s, progress, done, q.id);
    } else {
      PassSkipsLocked(quests[1..], s, progress', done', k - 1);
      assert quests[1..][k - 1] == quests[k];
      assert q.id != quests[k].id;
    }
  }

  /** Every progress value the pass writes is the quest's evaluated progress,
      so it lies within [0, target] for the catalogue's quests. */
  predicate ProgressInRange(progress: map<string, int>) {
    forall i :: 0 <= i < |QuestDefinitions| && QuestDefinitions[i].id in progress ==>
      0 <= progress[QuestDefinitions[i].id] <= QuestDefinitions[i].target
  }

  lemma {:induction false} PassKeepsRange(k: nat, s: QuestSnapshot, progress: map<string, int>, done: map<string, bool>)
    requires k <= |QuestDefinitions| && ProgressInRange(progress)
    ensures ProgressInRange(ProgressPass(QuestDefinitions[k..], s, progress, done).0)
    decreases |QuestDefinitions| - k
  {
    DefinitionsWellFormed();
    if k < |QuestDefinitions| {
      var q := QuestDefinitions[k];
      assert QuestDefinitions[k..][1..] == QuestDefinitions[k + 1..];
      if !IsQuestUnlocked(q, done) {
        PassKeepsRange(k + 1, s, progress, done);
      } else {
        var p := EvaluateQuestProgress(q, s);
        var done' := if p >= q.target then done[q.id := true] else done;
        assert ProgressInRange(progress[q.id := p]) by {
          forall i | 0 <= i < |QuestDefinitions| && QuestDefinitions[i].id in progress[q.id := p]
            ensures 0 <= progress[q.id := p][QuestDefinitions[i].id] <= QuestDefinitions[i].target
          {
            if QuestDefinitions[i].id == q.id { assert i == k; }
          }
        }
        PassKeepsRange(k + 1, s, progress[q.id := p], done');
      }
    }
  }

  /** The ids of the catalogue, and the maps `createInitialQuestState` starts from. */
  function DefinitionIds(): set<string> {
    set i | 0 <= i < |QuestDefinitions| :: QuestDefinitions[i].id
  }

  function ZeroProgress(): map<string, int> {
    map id | id in DefinitionIds() :: 0
  }

  function NoneCompleted(): map<string, bool> {
    map id | id in DefinitionIds() :: false
  }

  function EmptySnapshot(): QuestSnapshot {
    QuestSnapshot([], map[], [], NoneCompleted())
  }

  /** The quest maps of `createInitialQuestState()`: applying the rules to a
      store with no visits leaves every progress at 0 and nothing completed. */
  method CreateInitialQuestMaps() returns (progress: map<string, int>, completed: map<string, bool>)
    ensures progress == ZeroProgress() && completed == NoneCompleted()
  {
    progress, completed := ApplyQuestProgress(EmptySnapshot(), ZeroProgress());
    InitialPass();
  }

  lemma InitialPass()
    ensures ProgressPass(QuestDefinitions, EmptySnapshot(), ZeroProgress(), NoneCompleted()) == (ZeroProgress(), NoneCompleted())
  {
    var s := EmptySnapshot();
    var z, n := ZeroProgress(), NoneCompleted();
    var d := QuestDefinitions;
    assert "first-steps" in DefinitionIds() by { assert d[0].id == "first-steps"; }
    assert z["first-steps" := 0] == z;
    assert IsQuestUnlocked(d[0], n) && EvaluateQuestProgress(d[0], s) == 0;
    assert ProgressPass(d, s, z, n) == ProgressPass(d[1..], s, z, n);
    assert !IsQuestUnlocked(d[1], n) && !IsQuestUnlocked(d[2], n) && !IsQuestUnlocked(d[3], n);
    assert ProgressPass(d[1..], s, z, n) == ProgressPass(d[2..], s, z, n) by { assert d[1..][1..] == d[2..]; }
    assert ProgressPass(d[2..], s, z, n) == ProgressPass(d[3..], s, z, n) by { assert d[2..][1..] == d[3..]; }
    assert ProgressPass(d[3..], s, z, n) == ProgressPass([], s, z, n) by { assert d[3..][1..] == []; }
  }

  // ---------------------------------------------------------------------
  // registerVisit helpers

  /** One step of the `categories.forEach` in `registerVisit`. */
  function AddCategoryVisit(cats: map<string, seq<string>>, category: string, id: string): map<string, seq<string>> {
    if category == "" then cats
    else
      var key := Trim(category);
      var existing := Lookup(cats, key);
      if id in existing then cats else cats[key := existing + [id]]
  }

  /** `categoryVisits` after the whole `forEach`. */
  function CategoryVisitsAfter(cats: map<string, seq<string>>, categories: seq<string>, id: string): map<string, seq<string>>
    decreases |categories|
  {
    if categories == [] then cats
    else CategoryVisitsAfter(AddCategoryVisit(cats, categories[0], id), categories[1..], id)
  }

  /** The `forEach` loop of `registerVisit` that files a new visit under each
      of the dApp's non-empty categories, under its trimmed key (so a
      category of white space only is filed under `""`). */
  method RecordCategoryVisits(cats: map<string, seq<string>>, categories: seq<string>, id: string)
    returns (r: map<string, seq<string>>)
    ensures r == CategoryVisitsAfter(cats, categories, id)
  {
    r := cats;
    var i := 0;
    while i < |categories|
      invariant 0 <= i <= |categories|
      invariant CategoryVisitsAfter(r, categories[i..], id) == CategoryVisitsAfter(cats, categories, id)
    {
      assert categories[i..][1..] == categories[i + 1..];
      var category := categories[i];
      if category != "" {
        var key := Trim(category);
        var existing := Lookup(r, key);
        if id !in existing {
          r := r[key := existing + [id]];
        }
      }
      i := i + 1;
    }
  }

  /** Whether some non-empty category of the list trims to `key`. */
  predicate KeyListed(categories: seq<string>, key: string) {
    exists i :: 0 <= i < |categories| && categories[i] != "" && Trim(categories[i]) == key
  }

  /** After a new visit, a key's list gains the id exactly when some category
      names it. */
  lemma {:induction false} CategoryVisitsAfterAt(cats: map<string, seq<string>>, categories: seq<string>, id: string, key: string)
    requires id !in Lookup(cats, key)
    ensures Lookup(CategoryVisitsAfter(cats, categories, id), key)
      == if KeyListed(categories, key) then Lookup(cats, key) + [id] else Lookup(cats, key)
    decreases |categories|
  {
    if categories != [] {
      var c := categories[0];
      var cats' := AddCategoryVisit(cats, c, id);
      var hit := c != "" && Trim(c) == key;
      assert Lookup(cats', key) == if hit then Lookup(cats, key) + [id] else Lookup(cats, key);
      assert KeyListed(categories, key) <==> hit || KeyListed(categories[1..], key) by {
        if KeyListed(categories[1..], key) {
          var i :| 0 <= i < |categories[1..]| && categories[1..][i] != "" && Trim(categories[1..][i]) == key;
          assert categories[i + 1] == categories[1..][i];
        }
        if KeyListed(categories, key) && !hit {
          var i :| 0 <= i < |categories| && categories[i] != "" && Trim(categories[i]) == key;
          assert i > 0 && categories[1..][i - 1] == categories[i];
        }
      }
      if hit {
        assert id in Lookup(cats', key);
        AddedIdStays(cats', categories[1..], id, key);
      } else {
        CategoryVisitsAfterAt(cats', categories[1..], id, key);
      }
    }
  }

  /** Once a key's list holds the id, later categories leave that list alone. */
  lemma {:induction false} AddedIdStays(cats: map<string, seq<string>>, categories: seq<string>, id: string, key: string)
    requires id in Lookup(cats, key)
    ensures Lookup(CategoryVisitsAfter(cats, categories, id), key) == Lookup(cats, key)
    decreases |categories|
  {
    if categories != [] {
      AddedIdStays(AddCategoryVisit(cats, categories[0], id), categories[1..], id, key);
    }
  }

  /** The `reduce` counting the categories whose list is now exactly `[dapp.id]`. */
  function NewCategoryCount(categories: seq<string>, cats: map<string, seq<string>>, id: string): nat
    decreases |categories|
  {
    if categories == [] then 0
    else
      var hit := categories[0] != "" && Lookup(cats, Trim(categories[0])) == [id];
      (if hit then 1 else 0) + NewCategoryCount(categories[1..], cats, id)
  }

  /** Reference count: the listed non-empty categories whose trimmed key had
      no visit before. */
  function FreshCategoryCount(categories: seq<string>, cats: map<string, seq<string>>): nat
    decreases |categories|
  {
    if categories == [] then 0
    else
      var isFresh := categories[0] != "" && Lookup(cats, Trim(categories[0])) == [];
      (if isFresh then 1 else 0) + FreshCategoryCount(categories[1..], cats)
  }

  lemma {:induction false} CountsAgree(categories: seq<string>, all: seq<string>, before: map<string, seq<string>>, after: map<string, seq<string>>, id: string)
    requires forall i :: 0 <= i < |categories| && categories[i] != "" ==>
      Lookup(after, Trim(categories[i])) == Lookup(before, Trim(categories[i])) + [id]
    ensures NewCategoryCount(categories, after, id) == FreshCategoryCount(categories, before)
    decreases |categories|
  {
    if categories != [] {
      var c := categories[0];
      if c != "" {
        assert Lookup(after, Trim(c)) == Lookup(before, Trim(c)) + [id];
        assert (Lookup(after, Trim(c)) == [id]) <==> (Lookup(before, Trim(c)) == []) by {
          if Lookup(after, Trim(c)) == [id] {
            assert |Lookup(before, Trim(c))| == 0;
          }
        }
      }
      assert forall i :: 1 <= i < |categories| ==> categories[1..][i - 1] == categories[i];
      CountsAgree(categories[1..], all, before, after, id);
    }
  }

  /** The category bonus of a new visit counts, with repetition, the dApp's
      non-empty categories whose trimmed key had never been visited. */
  lemma NewCategoryBonus(cats: map<string, seq<string>>, categories: seq<string>, id: string)
    requires forall k :: k in cats ==> id !in cats[k]
    ensures NewCategoryCount(categories, CategoryVisitsAfter(cats, categories, id), id) == FreshCategoryCount(categories, cats)
  {
    var after := CategoryVisitsAfter(cats, categories, id);
    forall i | 0 <= i < |categories| && categories[i] != ""
      ensures Lookup(after, Trim(categories[i])) == Lookup(cats, Trim(categories[i])) + [id]
    {
      CategoryVisitsAfterAt(cats, categories, id, Trim(categories[i]));
    }
    CountsAgree(categories, categories, cats, after, id);
  }

  /** The XP a visit earns: 0 for a repeat visit; for a new one 25, plus 15 if
      the dApp is only on Monad, plus 5 per category whose list became `[id]`. */
  function VisitXp(dapp: VisitedDapp, isNewVisit: bool, cats: map<string, seq<string>>): (xp: int)
    ensures !isNewVisit ==> xp == 0
    ensures isNewVisit ==> xp >= UniqueVisitXp && (dapp.onlyOnMonad ==> xp >= UniqueVisitXp + OnlyOnMonadBonusXp)
  {
    if !isNewVisit then 0
    else
      UniqueVisitXp + (if dapp.onlyOnMonad then OnlyOnMonadBonusXp else 0)
      + NewCategoryCount(dapp.categories.GetOr([]), cats, dapp.id) * NewCategoryBonusXp
  }

  /** Keeping the category lists inside `visitedDapps` across a new visit. */
  lemma CategoryVisitsStayVisited(cats: map<string, seq<string>>, categories: seq<string>, id: string, visited: seq<string>)
    requires forall k :: k in cats ==> NoDup(cats[k]) && SubsetOf(cats[k], visited)
    requires id !in visited
    ensures var after := CategoryVisitsAfter(cats, categories, id);
      forall k :: k in after ==> NoDup(after[k]) && SubsetOf(after[k], visited + [id])
  {
    var after := CategoryVisitsAfter(cats, categories, id);
    forall k | k in after ensures NoDup(after[k]) && SubsetOf(after[k], visited + [id]) {
      CategoryVisitsAfterAt(cats, categories, id, k);
      assert after[k] == Lookup(after, k);
      if KeyListed(categories, k) { NoDupAppend(Lookup(cats, k), id); }
    }
  }

  // ---------------------------------------------------------------------
  // The store

  /** `visitedDapps` holds distinct non-empty ids, and every category list
      and `onlyOnMonadVisited` hold distinct ids drawn from it. */
  ghost predicate VisitsValid(visited: seq<string>, cats: map<string, seq<string>>, only: seq<string>) {
    && NoDup(visited) && "" !in visited
    && (forall k :: k in cats ==> NoDup(cats[k]) && SubsetOf(cats[k], visited))
    && NoDup(only) && SubsetOf(only, visited)
  }

  /** Only completed quests are ever claimed. */
  ghost predicate ClaimsValid(claimed: map<string, bool>, completed: map<string, bool>) {
    forall id :: IsDone(claimed, id) ==> IsDone(completed, id)
  }

  /** `votes` counts the distinct recorded votes and `glitchUnlocked` is "at least 3". */
  ghost predicate VotesValid(votes: seq<string>, p: LegacyProgress) {
    NoDup(votes) && "" !in votes && p.votes == |votes| && (p.glitchUnlocked <==> |votes| >= 3)
  }

  /** `collections` counts the distinct recorded collections and
      `recommendationsUnlocked` is "at least 5". */
  ghost predicate CollectionsValid(collections: seq<string>, p: LegacyProgress) {
    NoDup(collections) && "" !in collections && p.collections == |collections|
    && (p.recommendationsUnlocked <==> |collections| >= 5)
  }

  lemma InitialValid()
    ensures ProgressInRange(ZeroProgress())
    ensures VisitsValid([], map[], [])
    ensures ClaimsValid(map[], NoneCompleted())
    ensures VotesValid([], LegacyProgress(0, 0, false, false))
    ensures CollectionsValid([], LegacyProgress(0, 0, false, false))
  {
  }

  /** `visitedDapps` after visiting `dapp`: the id is appended only when new. */
  function NextVisited(visited: seq<string>, dapp: VisitedDapp): seq<string> {
    if dapp.id !in visited then visited + [dapp.id] else visited
  }

  /** `categoryVisits` after visiting `dapp`: only a new visit is filed. */
  function NextCategoryVisits(visited: seq<string>, cats: map<string, seq<string>>, dapp: VisitedDapp): map<string, seq<string>> {
    if dapp.id !in visited then CategoryVisitsAfter(cats, dapp.categories.GetOr([]), dapp.id) else cats
  }

  /** `onlyOnMonadVisited` after visiting `dapp`. */
  function NextOnlyOnMonad(visited: seq<string>, only: seq<string>, dapp: VisitedDapp): seq<string> {
    if dapp.id !in visited && dapp.onlyOnMonad then only + [dapp.id] else only
  }

  /** A visit keeps the visit lists consistent. */
  lemma VisitKeepsVisitsValid(visited: seq<string>, cats: map<string, seq<string>>, only: seq<string>, dapp: VisitedDapp)
    requires VisitsValid(visited, cats, only) && dapp.id != ""
    ensures VisitsValid(NextVisited(visited, dapp), NextCategoryVisits(visited, cats, dapp), NextOnlyOnMonad(visited, only, dapp))
  {
    var id := dapp.id;
    if id !in visited {
      CategoryVisitsStayVisited(cats, dapp.categories.GetOr([]), id, visited);
      NoDupAppend(visited, id);
      if dapp.onlyOnMonad {
        assert id !in only;
        NoDupAppend(only, id);
      }
      var v', c', o' := NextVisited(visited, dapp), NextCategoryVisits(visited, cats, dapp), NextOnlyOnMonad(visited, only, dapp);
      assert v' == visited + [id];
      assert c' == CategoryVisitsAfter(cats, dapp.categories.GetOr([]), id);
      assert forall k :: k in c' ==> NoDup(c'[k]) && SubsetOf(c'[k], v');
      assert SubsetOf(o', v');
    }
  }

  /** The list updates of `registerVisit` for a dApp with an id. */
  method UpdateVisitLists(visited: seq<string>, cats: map<string, seq<string>>, only: seq<string>, dapp: VisitedDapp)
    returns (visited': seq<string>, cats': map<string, seq<string>>, only': seq<string>)
    requires dapp.id != "" && VisitsValid(visited, cats, only)
    ensures visited' == NextVisited(visited, dapp)
    ensures cats' == NextCategoryVisits(visited, cats, dapp)
    ensures only' == NextOnlyOnMonad(visited, only, dapp)
    ensures VisitsValid(visited', cats', only')
  {
    var id := dapp.id;
    var isNewVisit := id !in visited;
    visited' := if isNewVisit then visited + [id] else visited;
    cats' := cats;
    if isNewVisit {
      cats' := RecordCategoryVisits(cats, dapp.categories.GetOr([]), id);
    }
    only' := only;
    if isNewVisit && dapp.onlyOnMonad && id !in only' {
      only' := only' + [id];
    }
    VisitKeepsVisitsValid(visited, cats, only, dapp);
  }

  /** The part of the store invariant about XP and visits. */
  ghost predicate XpAndVisitsValid(xp: int, level: int, visited: seq<string>, cats: map<string, seq<string>>, only: seq<string>) {
    && xp >= 0 && level == LevelFromXp(xp)
    && VisitsValid(visited, cats, only)
  }

  /** The part of the store invariant about quests, claims and the legacy counters. */
  ghost predicate QuestStateValid(progress: map<string, int>, completed: map<string, bool>, claimed: map<string, bool>,
                                  votes: seq<string>, collections: seq<string>, legacy: LegacyProgress) {
    && ProgressInRange(progress)
    && ClaimsValid(claimed, completed)
    && VotesValid(votes, legacy)
    && CollectionsValid(collections, legacy)
  }

  class QuestStore {
    var xp: int
    var level: int
    var visitedDapps: seq<string>
    var visitLog: seq<VisitRecord>
    var categoryVisits: map<string, seq<string>>
    var onlyOnMonadVisited: seq<string>
    var questProgressMap: map<string, int>
    var completedQuests: map<string, bool>
    var claimedRewards: map<string, bool>
    var lastVisitAt: Option<int>
    var legacyVotes: seq<string>
    var legacyCollections: seq<string>
    var questProgress: LegacyProgress

    /** What every action keeps true of the store. */
    ghost predicate Valid()
      reads this
    {
      && XpAndVisitsValid(xp, level, visitedDapps, categoryVisits, onlyOnMonadVisited)
      && QuestStateValid(questProgressMap, completedQuests, claimedRewards, legacyVotes, legacyCollections, questProgress)
    }

    /** The fields `createInitialQuestState()` produces. */
    ghost predicate IsInitial()
      reads this
    {
      VisitsInitial() && QuestsInitial()
    }

    ghost predicate VisitsInitial()
      reads this
    {
      && xp == 0 && level == 1 && visitedDapps == [] && visitLog == [] && categoryVisits == map[]
      && onlyOnMonadVisited == [] && lastVisitAt == None
    }

    ghost predicate QuestsInitial()
      reads this
    {
      && questProgressMap == ZeroProgress() && completedQuests == NoneCompleted() && claimedRewards == map[]
      && legacyVotes == [] && legacyCollections == [] && questProgress == LegacyProgress(0, 0, false, false)
    }

    function Snapshot(): QuestSnapshot
      reads this
    {
      QuestSnapshot(visitedDapps, categoryVisits, onlyOnMonadVisited, completedQuests)
    }

    /** The store as `create(...)` first builds it. */
    constructor ()
      ensures IsInitial() && Valid()
    {
      var progress, completed := CreateInitialQuestMaps();
      xp, level := 0, 1;
      visitedDapps, visitLog, categoryVisits, onlyOnMonadVisited := [], [], map[], [];
      questProgressMap, completedQuests, claimedRewards := progress, completed, map[];
      lastVisitAt, legacyVotes, legacyCollections := None, [], [];
      questProgress := LegacyProgress(0, 0, false, false);
      new;
      InitialValid();
    }

    /** `resetQuestData()`: every field back to `createInitialQuestState()`. */
    method ResetQuestData()
      modifies this
      ensures IsInitial() && Valid()
    {
      ResetVisits();
      ResetQuests();
      InitialValid();
    }

    /** The visit fields of `createInitialQuestState()`. */
    method ResetVisits()
      modifies this`xp, this`level, this`visitedDapps, this`visitLog, this`categoryVisits,
               this`onlyOnMonadVisited, this`lastVisitAt
      ensures VisitsInitial()
    {
      xp, level := 0, 1;
      visitedDapps, visitLog, categoryVisits, onlyOnMonadVisited := [], [], map[], [];
      lastVisitAt := None;
    }

    /** The quest and legacy fields of `createInitialQuestState()`. */
    method ResetQuests()
      modifies this`questProgressMap, this`completedQuests, this`claimedRewards,
               this`legacyVotes, this`legacyCollections, this`questProgress
      ensures QuestsInitial()
    {
      var progress, completed := CreateInitialQuestMaps();
      questProgressMap, completedQuests, claimedRewards := progress, completed, map[];
      legacyVotes, legacyCollections := [], [];
      questProgress := LegacyProgress(0, 0, false, false);
    }

    /** `registerVisit(dapp)`, with `now` standing for `Date.now()`: a new
        visit is recorded and rewarded, then the quest rules are re-applied. */
    method RegisterVisit(dapp: VisitedDapp, now: int)
      requires Valid()
      modifies this`xp, this`level, this`visitedDapps, this`visitLog, this`categoryVisits,
               this`onlyOnMonadVisited, this`lastVisitAt, this`questProgressMap, this`completedQuests
      ensures Valid()
      ensures dapp.id == "" ==> unchanged(this)
      ensures dapp.id != "" ==>
        && visitedDapps == NextVisited(old(visitedDapps), dapp)
        && categoryVisits == NextCategoryVisits(old(visitedDapps), old(categoryVisits), dapp)
        && onlyOnMonadVisited == NextOnlyOnMonad(old(visitedDapps), old(onlyOnMonadVisited), dapp)
        && visitLog == old(visitLog) + [VisitRecord(dapp.id, now)]
        && xp == old(xp) + VisitXp(dapp, dapp.id !in old(visitedDapps), categoryVisits)
        && (questProgressMap, completedQuests) == ProgressPass(QuestDefinitions,
             QuestSnapshot(visitedDapps, categoryVisits, onlyOnMonadVisited, old(completedQuests)),
             old(questProgressMap), old(completedQuests))
        && lastVisitAt == Some(now)
      ensures xp >= old(xp)
      ensures forall id :: IsDone(old(completedQuests), id) ==> IsDone(completedQuests, id)
      ensures claimedRewards == old(claimedRewards) && legacyVotes == old(legacyVotes)
      ensures legacyCollections == old(legacyCollections) && questProgress == old(questProgress)
    {
      if dapp.id == "" { return; }
      RecordVisit(dapp, now);
      RefreshQuests();
    }

    /** The visit half of `registerVisit`: lists, log, XP and level. */
    method RecordVisit(dapp: VisitedDapp, now: int)
      requires Valid() && dapp.id != ""
      modifies this`xp, this`level, this`visitedDapps, this`visitLog, this`categoryVisits,
               this`onlyOnMonadVisited, this`lastVisitAt
      ensures Valid()
      ensures visitedDapps == NextVisited(old(visitedDapps), dapp)
      ensures categoryVisits == NextCategoryVisits(old(visitedDapps), old(categoryVisits), dapp)
      ensures onlyOnMonadVisited == NextOnlyOnMonad(old(visitedDapps), old(onlyOnMonadVisited), dapp)
      ensures visitLog == old(visitLog) + [VisitRecord(dapp.id, now)]
      ensures xp == old(xp) + VisitXp(dapp, dapp.id !in old(visitedDapps), categoryVisits)
      ensures xp >= old(xp)
      ensures lastVisitAt == Some(now)
    {
      var isNewVisit := dapp.id !in visitedDapps;
      var visited, cats, only := UpdateVisitLists(visitedDapps, categoryVisits, onlyOnMonadVisited, dapp);
      var newXp := xp + VisitXp(dapp, isNewVisit, cats);
      xp, level := newXp, LevelFromXp(newXp);
      visitedDapps, categoryVisits, onlyOnMonadVisited := visited, cats, only;
      visitLog := visitLog + [VisitRecord(dapp.id, now)];
      lastVisitAt := Some(now);
      assert QuestStateValid(questProgressMap, completedQuests, claimedRewards, legacyVotes, legacyCollections, questProgress);
    }

    /** The quest half of `registerVisit`: `applyQuestProgress` on the store. */
    method RefreshQuests()
      requires Valid()
      modifies this`questProgressMap, this`completedQuests
      ensures Valid()
      ensures (questProgressMap, completedQuests) == ProgressPass(QuestDefinitions, old(Snapshot()),
                                                                   old(questProgressMap), old(completedQuests))
      ensures forall id :: IsDone(old(completedQuests), id) ==> IsDone(completedQuests, id)
    {
      var progress, completed := ApplyQuestProgress(Snapshot(), questProgressMap);
      questProgressMap, completedQuests := progress, completed;
    }

    /** `addVote(dappId)`: a falsy or already recorded id changes nothing. */
    method AddVote(dappId: string)
      requires Valid()
      modifies this`legacyVotes, this`questProgress
      ensures Valid()
      ensures dappId == "" || dappId in old(legacyVotes) ==> unchanged(this)
      ensures dappId != "" && dappId !in old(legacyVotes) ==>
        && legacyVotes == old(legacyVotes) + [dappId]
        && questProgress == old(questProgress).(votes := |legacyVotes|, glitchUnlocked := |legacyVotes| >= 3)
    {
      if dappId == "" || dappId in legacyVotes { return; }
      legacyVotes := legacyVotes + [dappId];
      var voteCount := |legacyVotes|;
      questProgress := questProgress.(votes := voteCount, glitchUnlocked := voteCount >= 3);
    }

    /** `addCollection(dappId)`: a falsy or already recorded id changes nothing. */
    method AddCollection(dappId: string)
      requires Valid()
      modifies this`legacyCollections, this`questProgress
      ensures Valid()
      ensures dappId == "" || dappId in old(legacyCollections) ==> unchanged(this)
      ensures dappId != "" && dappId !in old(legacyCollections) ==>
        && legacyCollections == old(legacyCollections) + [dappId]
        && questProgress == old(questProgress).(collections := |legacyCollections|,
                                                recommendationsUnlocked := |legacyCollections| >= 5)
    {
      if dappId == "" || dappId in legacyCollections { return; }
      legacyCollections := legacyCollections + [dappId];
      var collectionCount := |legacyCollections|;
      questProgress := questProgress.(collections := collectionCount, recommendationsUnlocked := collectionCount >= 5);
    }

    /** `getQuestList()`: every catalogue quest, in catalogue order, with its
        unlock state, stored progress (0 when missing) and flags. */
    function GetQuestList(): (views: seq<QuestView>)
      reads this
      ensures |views| == |QuestDefinitions|
      ensures forall i :: 0 <= i < |views| ==>
        && views[i].quest == QuestDefinitions[i]
        && (views[i].unlocked <==> IsQuestUnlocked(QuestDefinitions[i], completedQuests))
        && (views[i].completed <==> IsDone(completedQuests, QuestDefinitions[i].id))
        && (views[i].claimed <==> IsDone(claimedRewards, QuestDefinitions[i].id))
        && views[i].progress == Lookup0(questProgressMap, QuestDefinitions[i].id)
      ensures Valid() ==> forall i :: 0 <= i < |views| ==>
        && 0 <= views[i].progress <= views[i].quest.target
        && (views[i].claimed ==> views[i].completed)
    {
      seq(|QuestDefinitions|, i requires 0 <= i < |QuestDefinitions| reads this =>
        var q := QuestDefinitions[i];
        QuestView(q, IsQuestUnlocked(q, completedQuests),
                  Lookup0(questProgressMap, q.id),
                  IsDone(completedQuests, q.id), IsDone(claimedRewards, q.id)))
    }

    /** `claimQuestReward(questId)`: pays a completed, unclaimed quest's reward
        once; any other call returns false and changes nothing. */
    method ClaimQuestReward(questId: string) returns (ok: bool)
      requires Valid()
      modifies this`xp, this`level, this`claimedRewards
      ensures Valid()
      ensures ok <==> (exists i :: 0 <= i < |QuestDefinitions| && QuestDefinitions[i].id == questId)
                      && IsDone(old(completedQuests), questId) && !IsDone(old(claimedRewards), questId)
      ensures !ok ==> unchanged(this)
      ensures ok ==> exists i :: 0 <= i < |QuestDefinitions| && QuestDefinitions[i].id == questId
                                && xp == old(xp) + QuestDefinitions[i].xpReward
      ensures ok ==> level == LevelFromXp(xp) && claimedRewards == old(claimedRewards)[questId := true]
    {
      var found := FindQuest(questId);
      if found.None? { return false; }
      var quest := found.value;
      if !IsDone(completedQuests, questId) || IsDone(claimedRewards, questId) { return false; }
      xp := xp + quest.xpReward;
      level := LevelFromXp(xp);
      claimedRewards := claimedRewards[questId := true];
      ok := true;
    }

    /** The integer parts of `getLevelInfo()`: the stored level and XP and the
        XP bounds of the current level. */
    function GetLevelInfo(): (info: (int, int, int, int))
      reads this
      ensures info.0 == level && info.1 == xp
      ensures info.3 - info.2 == LevelXpStep
      ensures Valid() ==> info.2 <= info.1 < info.3
    {
      (level, xp, XpForLevel(level), XpForLevel(level + 1))
    }
  }

  /** `questDefinitions.find((q) => q.id === questId)` */
  method FindQuest(questId: string) returns (r: Option<Quest>)
    ensures r.None? <==> forall i :: 0 <= i < |QuestDefinitions| ==> QuestDefinitions[i].id != questId
    ensures r.Some? ==> exists i :: 0 <= i < |QuestDefinitions| && QuestDefinitions[i] == r.value && r.value.id == questId
  {
    var i := 0;
    while i < |QuestDefinitions|
      invariant 0 <= i <= |QuestDefinitions|
      invariant forall j :: 0 <= j < i ==> QuestDefinitions[j].id != questId
    {
      if QuestDefinitions[i].id == questId { return Some(QuestDefinitions[i]); }
      i := i + 1;
    }
    return None;
  }

  /** A reward is paid once: the second claim of the same quest is refused
      and leaves the XP as the first claim set it. */
  method ClaimTwice(store: QuestStore, questId: string) returns (first: bool, second: bool)
    requires store.Valid()
    modifies store
    ensures !second
    ensures first ==> store.xp > old(store.xp)
  {
    first := store.ClaimQuestReward(questId);
    second := store.ClaimQuestReward(questId);
    if first {
      DefinitionsWellFormed();
    }
  }
}

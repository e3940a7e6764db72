/** The quest panel (src/components/QuestTracker.jsx): which quests it lists
    and in which order, the percentage each progress bar shows, the status
    line and claim button of each quest, the XP line of the level header and
    the class-name helper `cx`. */
module QuestTracker {
  import opened Strings
  import opened QuestConfig
  import opened QuestProgress

  /** `maxItems` when the panel is given none. */
  const DefaultMaxItems: nat := 3

  // Percentages

  /** `Math.round(progress / target * 100)` for a positive target, in exact
      rational arithmetic: the integer nearest to 100·progress/target, a half
      rounding up. */
  function RoundedPercent(progress: int, target: int): int
    requires target > 0
  {
    (200 * progress + target) / (2 * target)
  }

  /** The rounded value lies within half a unit of 100·progress/target. */
  lemma RoundedPercentSpec(progress: int, target: int)
    requires target > 0
    ensures var r := RoundedPercent(progress, target);
      2 * target * r - target <= 200 * progress < 2 * target * r + target
  {
    var a, b := 200 * progress + target, 2 * target;
    var q, m := a / b, a % b;
    assert a == b * q + m && 0 <= m < b;
  }

  /** Only one integer lies within half a unit (the lower end included), so
      the rounding is determined by that bracket. */
  lemma RoundedPercentUnique(progress: int, target: int, r: int)
    requires target > 0
    requires 2 * target * r - target <= 200 * progress < 2 * target * r + target
    ensures r == RoundedPercent(progress, target)
  {
    var s := RoundedPercent(progress, target);
    RoundedPercentSpec(progress, target);
    if r < s {
      MulStep(2 * target, r, s);
    } else if s < r {
      MulStep(2 * target, s, r);
    }
  }

  /** A positive factor keeps a gap of at least one. */
  lemma {:induction false} MulStep(k: int, x: int, y: int)
    requires k > 0 && x < y
    ensures k * x + k <= k * y
    decreases y - x
  {
    if x + 1 < y {
      MulStep(k, x, y - 1);
      assert k * (y - 1) + k == k * y;
    } else {
      assert k * (x + 1) == k * x + k;
    }
  }

  /** `getProgressPercentage(progress, target)`:
      `Math.min(100, Math.round(progress / target * 100))`. */
  function ProgressPercentage(progress: int, target: int): (r: int)
    requires target > 0
    ensures r <= 100
  {
    var rounded := RoundedPercent(progress, target);
    if rounded < 100 then rounded else 100
  }

  /** The percentage is never above 100, never negative for non-negative
      progress, 100 exactly once progress reaches 99.5% of the target (so
      always at or past the target), and below that the nearest integer to
      the true percentage. */
  lemma ProgressPercentageSpec(progress: int, target: int)
    requires target > 0
    ensures var r := ProgressPercentage(progress, target);
      && r <= 100
      && (progress >= 0 ==> r >= 0)
      && (r == 100 <==> 200 * progress >= 199 * target)
      && (progress >= target ==> r == 100)
      && (r < 100 ==> 2 * target * r - target <= 200 * progress < 2 * target * r + target)
  {
    RoundedPercentSpec(progress, target);
    var rounded := RoundedPercent(progress, target);
    if rounded >= 100 {
      MulAtLeast(2 * target, 100, rounded);
    } else {
      MulStep(2 * target, rounded, 100);
    }
  }

  /** A positive factor keeps `<=`. */
  lemma MulAtLeast(k: int, x: int, y: int)
    requires k > 0 && x <= y
    ensures k * x <= k * y
  {
    if x < y {
      MulStep(k, x, y);
    }
  }

  /** More progress never shows a smaller percentage. */
  lemma ProgressPercentageMonotone(p1: int, p2: int, target: int)
    requires target > 0 && p1 <= p2
    ensures ProgressPercentage(p1, target) <= ProgressPercentage(p2, target)
  {
    var r1, r2 := RoundedPercent(p1, target), RoundedPercent(p2, target);
    RoundedPercentSpec(p1, target);
    RoundedPercentSpec(p2, target);
    if r2 < r1 {
      MulStep(2 * target, r2, r1);
    }
  }

  // Class names

  /** One argument of `cx`: a class string, or a falsy value such as `false`
      or `undefined`. */
  datatype ClassArg = Class(name: string) | Falsy

  predicate Truthy(a: ClassArg) {
    a.Class? && a.name != ""
  }

  /** `args.filter(Boolean)`, as the class strings that survive. */
  function Kept(args: seq<ClassArg>): seq<string> {
    if args == [] then []
    else (if Truthy(args[0]) then [args[0].name] else []) + Kept(args[1..])
  }

  /** `cx(...args)`: the truthy arguments joined with single spaces. */
  function Cx(args: seq<ClassArg>): string {
    Join(Kept(args), " ")
  }

  /** The filter keeps the truthy arguments, in order: it distributes over
      concatenation and keeps a single argument exactly when it is truthy. */
  lemma {:induction false} KeptAppend(a: seq<ClassArg>, b: seq<ClassArg>)
    ensures Kept(a + b) == Kept(a) + Kept(b)
    decreases |a|
  {
    if a == [] {
      assert a + b == b;
    } else {
      assert (a + b)[0] == a[0] && (a + b)[1..] == a[1..] + b;
      KeptAppend(a[1..], b);
    }
  }

  /** Every kept class is non-empty and comes from a truthy argument. */
  lemma {:induction false} KeptSpec(args: seq<ClassArg>)
    ensures |Kept(args)| <= |args|
    ensures forall k :: 0 <= k < |Kept(args)| ==> Kept(args)[k] != "" && Class(Kept(args)[k]) in args
    ensures Kept(args) == [] <==> forall k :: 0 <= k < |args| ==> !Truthy(args[k])
    decreases |args|
  {
    if args != [] {
      KeptSpec(args[1..]);
      assert forall k :: 0 <= k < |args[1..]| ==> args[1..][k] == args[k + 1];
    }
  }

  /** The class string is empty only when every argument is falsy, and when
      no surviving class contains a space, splitting it on spaces gives back
      exactly the surviving classes. */
  lemma CxSpec(args: seq<ClassArg>)
    ensures Cx(args) == "" <==> forall k :: 0 <= k < |args| ==> !Truthy(args[k])
    ensures (forall k, j :: 0 <= k < |Kept(args)| && 0 <= j < |Kept(args)[k]| ==> Kept(args)[k][j] != ' ') && Kept(args) != [] ==>
      SplitOn(Cx(args), {' '}) == Kept(args)
  {
    var kept := Kept(args);
    KeptSpec(args);
    if |kept| >= 2 {
      assert |Cx(args)| >= |kept[0]| > 0;
    }
    if (forall k, j :: 0 <= k < |kept| && 0 <= j < |kept[k]| ==> kept[k][j] != ' ') && kept != [] {
      SplitJoin(kept, ' ', {' '});
    }
  }

  // Display order

  /** The group a quest falls into on the panel; completed and claimed
      quests fall into none. */
  datatype Section = ClaimableSection | ActiveSection | LockedSection | Hidden

  function SectionOf(v: QuestView): Section {
    if !v.unlocked then LockedSection
    else if !v.completed then ActiveSection
    else if !v.claimed then ClaimableSection
    else Hidden
  }

  /** The position of a section on the panel. */
  function Rank(s: Section): nat {
    match s
    case ClaimableSection => 0
    case ActiveSection => 1
    case LockedSection => 2
    case Hidden => 3
  }

  /** `questList.filter(…)` for one section's condition. */
  function Pick(views: seq<QuestView>, s: Section): (r: seq<QuestView>)
    ensures |r| <= |views|
    ensures forall k :: 0 <= k < |r| ==> SectionOf(r[k]) == s && r[k] in views
  {
    if views == [] then []
    else (if SectionOf(views[0]) == s then [views[0]] else []) + Pick(views[1..], s)
  }

  /** `[...claimable, ...active, ...upcoming]` */
  function Ordered(views: seq<QuestView>): seq<QuestView> {
    Pick(views, ClaimableSection) + Pick(views, ActiveSection) + Pick(views, LockedSection)
  }

  lemma {:induction false} PickAppend(a: seq<QuestView>, b: seq<QuestView>, s: Section)
    ensures Pick(a + b, s) == Pick(a, s) + Pick(b, s)
    decreases |a|
  {
    if a == [] {
      assert a + b == b;
    } else {
      assert (a + b)[0] == a[0] && (a + b)[1..] == a[1..] + b;
      PickAppend(a[1..], b, s);
    }
  }

  /** Picking a section out of views that all belong to section `t` keeps
      them all when `s` is `t`, and none otherwise. */
  lemma {:induction false} PickUniform(views: seq<QuestView>, s: Section, t: Section)
    requires forall k :: 0 <= k < |views| ==> SectionOf(views[k]) == t
    ensures Pick(views, s) == if s == t then views else []
    decreases |views|
  {
    if views != [] {
      PickUniform(views[1..], s, t);
      assert views == [views[0]] + views[1..];
    }
  }

  /** A quest is listed exactly when it is not completed-and-claimed, so no
      finished quest is shown and nothing shown is finished. */
  lemma {:induction false} PickHidden(views: seq<QuestView>)
    ensures Pick(views, Hidden) == [] <==> forall k :: 0 <= k < |views| ==> SectionOf(views[k]) != Hidden
    decreases |views|
  {
    if views != [] {
      PickHidden(views[1..]);
      assert forall k :: 0 <= k < |views[1..]| ==> views[1..][k] == views[k + 1];
    }
  }

  /** Where each section lands in the ordered list: claimable quests
      first, then active ones, then locked ones, all taken from the list. */
  lemma OrderedLayout(views: seq<QuestView>)
    ensures var a, b := |Pick(views, ClaimableSection)|, |Pick(views, ActiveSection)|;
      var o := Ordered(views);
      forall k :: 0 <= k < |o| ==>
        && o[k] in views
        && (k < a ==> SectionOf(o[k]) == ClaimableSection)
        && (a <= k < a + b ==> SectionOf(o[k]) == ActiveSection)
        && (a + b <= k ==> SectionOf(o[k]) == LockedSection)
  {
    var a, b, c := Pick(views, ClaimableSection), Pick(views, ActiveSection), Pick(views, LockedSection);
    var o := Ordered(views);
    forall k | 0 <= k < |o|
      ensures o[k] in views
      ensures k < |a| ==> SectionOf(o[k]) == ClaimableSection
      ensures |a| <= k < |a| + |b| ==> SectionOf(o[k]) == ActiveSection
      ensures |a| + |b| <= k ==> SectionOf(o[k]) == LockedSection
    {
      if k < |a| {
        assert o[k] == a[k];
      } else if k < |a| + |b| {
        assert o[k] == b[k - |a|];
      } else {
        assert o[k] == c[k - |a| - |b|];
      }
    }
  }

  /** The panel order is claimable, then active, then locked; every listed
      quest comes from the list and none of them is completed and claimed. */
  lemma OrderedRanks(views: seq<QuestView>)
    ensures var o := Ordered(views);
      && (forall i, j :: 0 <= i < j < |o| ==> Rank(SectionOf(o[i])) <= Rank(SectionOf(o[j])))
      && (forall k :: 0 <= k < |o| ==> SectionOf(o[k]) != Hidden && o[k] in views)
  {
    OrderedLayout(views);
  }

  /** Each section of the ordered list is that section of the quest list, in
      the quest list's order, and no completed, claimed quest is listed.
      With the ranks above, this fixes the order completely. */
  lemma OrderedPicks(views: seq<QuestView>)
    ensures var o := Ordered(views);
      && Pick(o, ClaimableSection) == Pick(views, ClaimableSection)
      && Pick(o, ActiveSection) == Pick(views, ActiveSection)
      && Pick(o, LockedSection) == Pick(views, LockedSection)
      && Pick(o, Hidden) == []
  {
    var a, b, c := Pick(views, ClaimableSection), Pick(views, ActiveSection), Pick(views, LockedSection);
    PickSplit(a, b, c, ClaimableSection);
    PickSplit(a, b, c, ActiveSection);
    PickSplit(a, b, c, LockedSection);
    PickSplit(a, b, c, Hidden);
  }

  /** Picking one section out of the three concatenated sections. */
  lemma PickSplit(a: seq<QuestView>, b: seq<QuestView>, c: seq<QuestView>, s: Section)
    requires forall k :: 0 <= k < |a| ==> SectionOf(a[k]) == ClaimableSection
    requires forall k :: 0 <= k < |b| ==> SectionOf(b[k]) == ActiveSection
    requires forall k :: 0 <= k < |c| ==> SectionOf(c[k]) == LockedSection
    ensures Pick(a + b + c, s) ==
      (if s == ClaimableSection then a else if s == ActiveSection then b else if s == LockedSection then c else [])
  {
    PickAppend(a + b, c, s);
    PickAppend(a, b, s);
    PickUniform(a, s, ClaimableSection);
    PickUniform(b, s, ActiveSection);
    PickUniform(c, s, LockedSection);
  }

  /** The list is empty exactly when every quest is completed and claimed. */
  lemma OrderedEmpty(views: seq<QuestView>)
    ensures Ordered(views) == [] <==> forall k :: 0 <= k < |views| ==> SectionOf(views[k]) == Hidden
  {
    if Ordered(views) == [] {
      forall k | 0 <= k < |views| ensures SectionOf(views[k]) == Hidden {
        PickMember(views, k);
      }
    } else {
      OrderedRanks(views);
      var o := Ordered(views);
      assert o[0] in views && SectionOf(o[0]) != Hidden;
    }
  }

  /** Every quest of the list is picked into its own section. */
  lemma {:induction false} PickMember(views: seq<QuestView>, k: nat)
    requires k < |views|
    ensures views[k] in Pick(views, SectionOf(views[k]))
    decreases |views|
  {
    if k > 0 {
      PickMember(views[1..], k - 1);
    }
  }

  /** A quest of the catalogue shown locked, unstarted and unclaimed. */
  function FallbackView(q: Quest): QuestView {
    QuestView(q, unlocked := false, progress := 0, completed := false, claimed := false)
  }

  function Min(a: nat, b: nat): nat {
    if a <= b then a else b
  }

  /** `displayedQuests`: the first `maxItems` of the ordered list, or, when
      nothing is left to list, the first `maxItems` catalogue quests shown
      as locked. */
  function DisplayedQuests(views: seq<QuestView>, maxItems: nat): seq<QuestView> {
    var ordered := Ordered(views);
    if ordered == [] then
      var n := Min(maxItems, |QuestDefinitions|);
      seq(n, i requires 0 <= i < n => FallbackView(QuestDefinitions[i]))
    else
      ordered[..Min(maxItems, |ordered|)]
  }

  /** At most `maxItems` quests; while anything is left to do they are the
      head of the ordered list, and once every quest is completed and
      claimed they are the first catalogue quests reset to locked. */
  lemma DisplayedQuestsSpec(views: seq<QuestView>, maxItems: nat)
    ensures var shown := DisplayedQuests(views, maxItems);
      && |shown| <= maxItems
      && (Ordered(views) != [] ==>
            && |shown| == Min(maxItems, |Ordered(views)|)
            && shown == Ordered(views)[..|shown|])
      && (Ordered(views) == [] <==> forall k :: 0 <= k < |views| ==> SectionOf(views[k]) == Hidden)
      && (Ordered(views) == [] ==>
            && |shown| == Min(maxItems, |QuestDefinitions|)
            && forall i :: 0 <= i < |shown| ==>
                 shown[i].quest == QuestDefinitions[i] && !shown[i].unlocked && shown[i].progress == 0
                 && !shown[i].completed && !shown[i].claimed)
  {
    OrderedEmpty(views);
  }

  // Per-quest flags

  /** The quest's `percent`. */
  function Percent(v: QuestView): int
    requires v.quest.target > 0
  {
    ProgressPercentage(v.progress, v.quest.target)
  }

  /** `canClaim` */
  predicate CanClaim(v: QuestView) {
    v.completed && !v.claimed
  }

  /** The width of the quest's bar, in percent. */
  function BarWidth(v: QuestView): int
    requires v.quest.target > 0
  {
    if !v.unlocked then 0 else Percent(v)
  }

  /** The pieces of the quest's status line, in the order they render. */
  function StatusLabels(v: QuestView): seq<string>
    requires v.quest.target > 0
  {
    (if !v.unlocked then ["Locked"] else [])
    + (if v.completed && v.claimed then ["Reward claimed"] else [])
    + (if CanClaim(v) then ["Completed! Claim reward"] else [])
    + (if v.unlocked && !v.completed then [IntToString(Percent(v)) + "%"] else [])
  }

  /** A locked quest's bar is empty and an unlocked quest's bar shows its
      percentage, never above 100. The status line carries one label per
      section (a locked quest that is somehow completed gets two); the claim
      button is there exactly for completed, unclaimed quests. */
  lemma QuestFlagsSpec(v: QuestView)
    requires v.quest.target > 0
    ensures BarWidth(v) <= 100
    ensures !v.unlocked ==> BarWidth(v) == 0
    ensures v.unlocked ==> BarWidth(v) == Percent(v)
    ensures v.progress >= 0 ==> BarWidth(v) >= 0
    ensures SectionOf(v) == ClaimableSection ==> StatusLabels(v) == ["Completed! Claim reward"] && CanClaim(v)
    ensures SectionOf(v) == ActiveSection ==> StatusLabels(v) == [IntToString(Percent(v)) + "%"] && !CanClaim(v)
    ensures SectionOf(v) == LockedSection && !v.completed ==> StatusLabels(v) == ["Locked"] && !CanClaim(v)
    ensures SectionOf(v) == Hidden ==> StatusLabels(v) == ["Reward claimed"] && !CanClaim(v)
    ensures SectionOf(v) == LockedSection && v.completed ==> |StatusLabels(v)| == 2
  {
    ProgressPercentageSpec(v.progress, v.quest.target);
  }

  /** Where a shown quest comes from: the quest list while anything is left
      to do, else the catalogue quest at the same position, while every
      quest of the list is completed and claimed. */
  lemma ShownFrom(views: seq<QuestView>, maxItems: nat, i: nat)
    requires i < |DisplayedQuests(views, maxItems)|
    ensures var v := DisplayedQuests(views, maxItems)[i];
      && (Ordered(views) != [] ==> v in views)
      && (Ordered(views) == [] ==>
            && i < |QuestDefinitions|
            && v == FallbackView(QuestDefinitions[i])
            && forall k :: 0 <= k < |views| ==> SectionOf(views[k]) == Hidden)
  {
    OrderedEmpty(views);
    if Ordered(views) != [] {
      OrderedRanks(views);
      assert DisplayedQuests(views, maxItems)[i] == Ordered(views)[i];
    }
  }

  /** On the panel of a consistent store, the claim button shows for a
      quest exactly when the store would pay its reward: it is a catalogue
      quest, completed and not yet claimed. The locked fallback quests never
      show it, and the store has paid them all already. */
  lemma ClaimButtonMatchesStore(store: QuestStore, maxItems: nat, i: nat)
    requires store.Valid()
    requires i < |DisplayedQuests(store.GetQuestList(), maxItems)|
    ensures var v := DisplayedQuests(store.GetQuestList(), maxItems)[i];
      && v.quest in QuestDefinitions
      && (CanClaim(v) <==> IsDone(store.completedQuests, v.quest.id) && !IsDone(store.claimedRewards, v.quest.id))
  {
    var views := store.GetQuestList();
    ShownFrom(views, maxItems, i);
    var v := DisplayedQuests(views, maxItems)[i];
    if Ordered(views) == [] {
      assert SectionOf(views[i]) == Hidden;
    } else {
      var k :| 0 <= k < |views| && views[k] == v;
    }
  }

  // Level header

  /** `xpIntoLevel` and `xpRequired` from the integer parts of
      `getLevelInfo()`. */
  function XpLine(info: (int, int, int, int)): (int, int) {
    var required := info.3 - info.2;
    (info.1 - info.2, if required < LevelXpStep then LevelXpStep else required)
  }

  /** For a consistent store the header reads "into/150" with the XP into
      the level below the 150 a level takes. */
  lemma XpLineSpec(store: QuestStore)
    requires store.Valid()
    ensures var line := XpLine(store.GetLevelInfo());
      && line.1 == LevelXpStep
      && 0 <= line.0 < line.1
      && line.0 == store.xp - XpForLevel(store.level)
  {
  }
}

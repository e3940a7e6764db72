# Monad Christmas: quests, catalogue and placement in Dafny

This project models the logic at the centre of the Monad Christmas web
experience and proves properties of it. Players ride a sled through a
winter world, open gift boxes that stand for dApps of the Monad ecosystem,
and earn XP and quest rewards as they go. The model covers:

- **Quest configuration** (`src/quests/questConfig.js`). This is the quest
  table, the 150-XP level bands, the progress that each kind of quest
  measures, and the unlock rule. It lives in `QuestConfig.dfy`.
- **The quest store** (`src/store/questStore.jsx`). This is a `QuestStore`
  class whose methods update XP, level, visit lists, category visits,
  quest progress, completion and claims in place. It lives in
  `QuestProgress.dfy`.
- **The discovery store** (`src/store/questStore.js`). This holds
  collected dApps, the DeFi and distance goals, placements and cosmetics,
  as the class `DiscoveryStore.Store`.
- **The data pipeline**:
  - the quote-aware CSV reader of `scripts/mergeDappData.mjs`
    (`CsvParse.dfy`), with a writer that it reads back exactly;
  - the CSV map, merge and counters of the same script (`CsvMerge.dfy`);
  - the ecosystem scraper's normalisation, `mergeEntry` store and text
    fallback parser from `scripts/fetchDapps.js` (`FetchDapps.dfy`);
  - the catalogue built from the enriched data, from
    `src/utils/dappsData.js` (`Catalogue.dfy`). This covers slugs, ids,
    social links, the seeded popularity score, the hidden sample, the
    category list and the category views;
  - the CSV feed hook of `src/hooks/useDappData.jsx` (`DappFeed.dfy`): row
    normalisation, filtering, grouping by category and the trending list;
  - the 25 gift cards of `src/data/dappsData.js` (`DappCards.dfy`).
- **Gift box placement** (`src/components/Experience.jsx`). This is the
  32-bit `createDeterministicRandom` generator, the twelve-attempt
  placement loop and the placement map (`Placement.dfy`). The 32-bit
  words are natural numbers below 2^32, and `Math.imul`, the shifts and
  the rotation are written out as arithmetic.
- **The quest tracker panel** (`src/components/QuestTracker.jsx`). This is
  the ordering of displayed quests, their percentages, labels and claim
  buttons, and the XP line (`QuestTracker.dfy`).
- **The dApp portrait** (`src/components/ArtPortrait.jsx`). This is the
  category chips, the social icon chooser, and the wallet guard on the
  vote and collect buttons (`ArtPortrait.dfy`).

`Strings.dfy` holds the string helpers that the JavaScript gets from its
runtime, on `seq<char>`: `trim`, ASCII case mapping, `includes`, `split`,
`join` and decimal rendering. It also holds the shared `Option` and
`Result` types.

## Model

| member | source | states |
|---|---|---|
| QuestConfig.DefinitionsWellFormed | src/quests/questConfig.js:1-39 | The four quest ids are distinct, every target is positive and every kind is a known one. |
| QuestConfig.LevelFromXp | src/quests/questConfig.js:43-44 | The level is the band `xpForLevel(level) <= xp < xpForLevel(level + 1)`, and it is at least 1 for non-negative XP. |
| QuestConfig.LevelIsUniqueBand | src/quests/questConfig.js:43-44 | Any level whose band contains xp is the computed level. |
| QuestConfig.LevelOfLevelStart | src/quests/questConfig.js:43-44 | `calculateLevelFromXp(xpForLevel(l)) == l`, so the level start lies in its own level. |
| QuestConfig.LevelMonotone | src/quests/questConfig.js:43 | More XP never gives a lower level. |
| QuestConfig.XpToNextLevel | src/quests/questConfig.js:45-49 | The XP still needed is between 1 and 150, and adding it reaches exactly the start of the next level. |
| QuestConfig.EvaluateQuestProgress | src/quests/questConfig.js:51-65 | Progress is the tracked visit count capped at the target, 0 for an unknown kind, and it reaches the target exactly when the visits do. |
| QuestConfig.AllDoneMeansEach | src/quests/questConfig.js:69-71 | `dependencies.every(...)` holds iff every dependency is marked completed. |
| QuestConfig.UnlockRule | src/quests/questConfig.js:67-72 | An auto-unlocked quest, or one with no or empty requirements, is unlocked; otherwise it is unlocked iff all requirements are done. |
| QuestConfig.UnlockMonotone | src/quests/questConfig.js:67-72 | Completing more quests never locks an unlocked quest. |
| QuestProgress.ApplyQuestProgress | src/store/questStore.jsx:43-52 | The loop gives the pass over all definitions. It never un-completes a quest and keeps progress within the targets. |
| QuestProgress.PassOnlyCompletes | src/store/questStore.jsx:43-52 | Completion only goes from unset to true: a completed quest stays completed, and every flag the pass changes is true. |
| QuestProgress.PassUntouchedIds | src/store/questStore.jsx:43-52 | Ids that are not in the definitions keep their progress and completion. |
| QuestProgress.PassSkipsLocked | src/store/questStore.jsx:45 | A quest that is still locked after the pass keeps its old progress and completion. |
| QuestProgress.PassKeepsRange | src/store/questStore.jsx:46-47 | Progress stays between 0 and the quest's target. |
| QuestProgress.CreateInitialQuestMaps | src/store/questStore.jsx:11-41 | The initial maps give every defined quest progress 0 and no completion. |
| QuestProgress.InitialPass | src/store/questStore.jsx:11-41 | Applying the progress pass to the empty snapshot changes nothing in the initial maps. |
| QuestProgress.RecordCategoryVisits | src/store/questStore.jsx:68-78 | The loop adds the dApp id once under each non-empty category, filed under its trimmed key (a white-space-only category under `''`), and nothing else changes. |
| QuestProgress.CategoryVisitsAfterAt | src/store/questStore.jsx:68-78 | A category's list gains the id at its end exactly when the category is listed. |
| QuestProgress.AddedIdStays | src/store/questStore.jsx:73-76 | A list that already holds the id is left as it is. |
| QuestProgress.NewCategoryBonus | src/store/questStore.jsx:88-93 | Counting after the update (length 1 and holding the id) equals counting the categories that had no visitor before. |
| QuestProgress.VisitXp | src/store/questStore.jsx:85-95 | A repeat visit earns nothing. A new one earns at least the unique-visit XP, plus the only-on-Monad bonus when flagged. |
| QuestProgress.CategoryVisitsStayVisited | src/store/questStore.jsx:68-78 | Category lists stay duplicate-free and contain only visited ids. |
| QuestProgress.InitialValid | src/store/questStore.jsx:11-41 | The initial state satisfies every store invariant. |
| QuestProgress.VisitKeepsVisitsValid | src/store/questStore.jsx:63-83 | A visit keeps the visit lists duplicate-free and consistent with each other. |
| QuestProgress.UpdateVisitLists | src/store/questStore.jsx:63-83 | It computes the three new visit lists and keeps them valid. |
| QuestProgress.QuestStore.constructor | src/store/questStore.jsx:54-58 | The store starts in the initial state and satisfies its invariant. |
| QuestProgress.QuestStore.ResetQuestData | src/store/questStore.jsx:209-211 | After a reset, everything is back to the initial state. |
| QuestProgress.QuestStore.RegisterVisit | src/store/questStore.jsx:59-125 | An empty id changes nothing. Otherwise the visit is logged, lists and XP are updated, the level follows XP, progress is re-evaluated and completions are kept. |
| QuestProgress.QuestStore.RecordVisit | src/store/questStore.jsx:63-99 | The visit part of `registerVisit`, with the new lists and the XP gain. |
| QuestProgress.QuestStore.RefreshQuests | src/store/questStore.jsx:100-123 | The quest maps become the progress pass over the new snapshot, and completions are never lost. |
| QuestProgress.QuestStore.AddVote | src/store/questStore.jsx:127-142 | A new id is appended, the legacy vote count becomes the list length, and the glitch unlock turns on at 3 votes; a repeat or empty id changes nothing; no field other than the votes and the legacy progress changes. |
| QuestProgress.QuestStore.AddCollection | src/store/questStore.jsx:144-159 | A new id is appended, the legacy collection count becomes the list length, and recommendations unlock at 5; a repeat or empty id changes nothing; no field other than the collections and the legacy progress changes. |
| QuestProgress.QuestStore.GetQuestList | src/store/questStore.jsx:161-174 | There is one view per definition, in order, with unlock state, stored progress (or 0), completion and claim. In a valid store a claimed quest is completed. |
| QuestProgress.QuestStore.ClaimQuestReward | src/store/questStore.jsx:176-193 | A claim succeeds iff the quest exists, is completed and is not yet claimed. Then the XP reward is added once, the level follows and the quest is marked claimed, and no other field changes; otherwise nothing changes. |
| QuestProgress.QuestStore.GetLevelInfo | src/store/questStore.jsx:195-207 | The current level's start and end are 150 apart and bracket the XP. |
| QuestProgress.FindQuest | src/store/questStore.jsx:177 | It finds the definition with that id, and `None` only when there is none. |
| QuestProgress.ClaimTwice | src/store/questStore.jsx:176-193 | A second claim of the same quest always fails, and a successful first claim raises XP. |
| DiscoveryStore.CollectStep | src/store/questStore.js:22-29 | A DeFi dApp advances the goal by one and completes it at the target; other categories leave it unchanged. |
| DiscoveryStore.DistanceStep | src/store/questStore.js:59-69 | Distance is added, and the goal is completed iff progress reaches the target. |
| DiscoveryStore.DistanceSteps | src/store/questStore.js:59-69 | Over exact reals, two distance steps equal one step with the summed distance. |
| DiscoveryStore.CollectStepsFromStart | src/store/questStore.js:10 | After n DeFi collections from the start, progress is n and the goal is completed iff n >= 5. |
| DiscoveryStore.Store.constructor | src/store/questStore.js:4-13 | The store starts with targets 5 and 500 and nothing collected. |
| DiscoveryStore.Store.CollectDapp | src/store/questStore.js:15-37 | A new dApp is recorded and opened, and the DeFi goal steps; an already discovered one changes nothing. |
| DiscoveryStore.Store.CloseActiveDapp | src/store/questStore.js:39-42 | The active dApp is cleared and nothing else changes. |
| DiscoveryStore.Store.SetDappPlacements | src/store/questStore.js:44-47 | The placements are replaced and the store invariant is kept. |
| DiscoveryStore.Store.SetPlayerPosition | src/store/questStore.js:49-52 | The position is replaced and the store invariant is kept. |
| DiscoveryStore.Store.SetPlayerSpeed | src/store/questStore.js:54-57 | The speed is replaced and the store invariant is kept. |
| DiscoveryStore.Store.AddDistance | src/store/questStore.js:59-70 | The distance goal takes one step, and its completion stays consistent. |
| DiscoveryStore.Store.UnlockCosmetic | src/store/questStore.js:72-78 | The cosmetic is in the list afterwards, added once. |
| DiscoveryStore.Store.ResetProgress | src/store/questStore.js:80-92 | Everything returns to the initial state. |
| DiscoveryStore.UnlockTwice | src/store/questStore.js:72-78 | Unlocking twice equals unlocking once. |
| DiscoveryStore.CollectTwice | src/store/questStore.js:15-37 | Collecting the same dApp twice equals collecting it once. |
| CsvParse.Step | scripts/mergeDappData.mjs:19-44 | One loop turn consumes one character, or two for a doubled quote or CR LF. |
| CsvParse.ParseCsv | scripts/mergeDappData.mjs:13-53 | The loop computes the scan of the text. Every row is non-empty with trimmed cells, and the empty text gives no rows. |
| CsvParse.Turn | scripts/mergeDappData.mjs:19-44 | It performs exactly one step of the scan. |
| CsvParse.ScanWellShaped | scripts/mergeDappData.mjs:31-51 | Every row the scan produces is non-empty and every cell is trimmed. |
| CsvParse.EmptyInput | scripts/mergeDappData.mjs:46-52 | The empty text parses to no rows. |
| CsvParse.ScanToggle | scripts/mergeDappData.mjs:23-29 | A quote that is not doubled inside quotes toggles the quoted state. |
| CsvParse.ScanDoubledQuote | scripts/mergeDappData.mjs:24-26 | `""` inside quotes adds one quote character. |
| CsvParse.ScanComma | scripts/mergeDappData.mjs:30-32 | An unquoted comma ends the cell, trimmed. |
| CsvParse.ScanNewline | scripts/mergeDappData.mjs:33-35 | An unquoted LF ends the cell and the row. |
| CsvParse.ScanCrLf | scripts/mergeDappData.mjs:36-39 | An unquoted CR LF ends the row once. |
| CsvParse.ScanLoneReturn | scripts/mergeDappData.mjs:30-32 | A lone CR ends the cell but not the row. |
| CsvParse.ParseCsvRoundTrip | scripts/mergeDappData.mjs:13-53 | Rows of trimmed cells, written with quoting and doubled quotes, parse back to themselves. |
| CsvMerge.NormalizeNameSpec | scripts/mergeDappData.mjs:55-59 | A key is the lower-cased name's ASCII letters and digits, and only those. |
| CsvMerge.NormalizeNameIdempotent | scripts/mergeDappData.mjs:55-59 | A key normalises to itself. |
| CsvMerge.NormalizeNameIgnoresCase | scripts/mergeDappData.mjs:55-59 | Names differing only in letter case share a key. |
| CsvMerge.CleanValueSpec | scripts/mergeDappData.mjs:61-66 | The result is empty for a non-string, a blank value, any case of `NONE` and `-`; otherwise it is the trimmed value. |
| CsvMerge.CleanValueIdempotent | scripts/mergeDappData.mjs:61-66 | Cleaning a cleaned value changes nothing. |
| CsvMerge.ToBooleanSpec | scripts/mergeDappData.mjs:68-71 | A missing value is false; a value made of white space around a trimmed word is true iff the word is `yes` or `true` in any mix of letter cases. |
| CsvMerge.ToBooleanIgnoresCase | scripts/mergeDappData.mjs:68-71 | The answer does not depend on letter case. |
| CsvMerge.RowEntrySpec | scripts/mergeDappData.mjs:83-86 | A header is a key iff it is in the header row, and its value is the cell under its last occurrence (`''` past the row's end). |
| CsvMerge.RowRecordSpec | scripts/mergeDappData.mjs:81-104 | A row is kept iff it has a non-empty cell, a `NAME` column and a name that is not blank once trimmed. Its record has that trimmed name; each text field is `cleanValue` of its column's cell; the flag is `toBoolean` of its cell; the tags are the non-empty trimmed pieces of the cleaned `TAGS` cell split at `,` and `\|`. |
| CsvMerge.CsvTagsRoundTrip | scripts/mergeDappData.mjs:94-97 | Trimmed tags free of `,` and `\|`, joined by either one, give the same tags back after cleaning and splitting, unless the joined cell spells `NONE` or `-`. |
| CsvMerge.MapLastWins | scripts/mergeDappData.mjs:89-90 | For a key, the map holds the last row's record (`map.set` overwrites). |
| CsvMerge.MapMissingKey | scripts/mergeDappData.mjs:89-90 | A key no row yields is absent. |
| CsvMerge.CsvMapKeys | scripts/mergeDappData.mjs:87-90 | Every record sits under the normalised form of its own non-empty name. |
| CsvMerge.LoadCsvMap | scripts/mergeDappData.mjs:73-108 | No rows gives the error "CSV file has no content"; otherwise the map is built from the header and the data rows. |
| CsvMerge.EnrichSpec | scripts/mergeDappData.mjs:126-157 | A matched entry takes the sheet's logo, banner and flag, fills a missing project type and carries the sheet metadata; its other fields are kept. |
| CsvMerge.MergeIdempotent | scripts/mergeDappData.mjs:119-158 | Merging twice equals merging once, and the second merge moves neither the logo nor the banner counter. |
| CsvMerge.UpdatesAtMostMatched | scripts/mergeDappData.mjs:125-142 | The logo and banner update counts never exceed the matched count. |
| CsvMerge.MergeData | scripts/mergeDappData.mjs:110-172 | Each entry is merged, an unmatched one is unchanged, and the counters count matches, logo changes, banner changes and flag updates. |
| FetchDapps.CollapseSpec | scripts/fetchDapps.js:13 | After collapsing, each white-space run is one space, and an already collapsed string is unchanged. |
| FetchDapps.NormalizeSpec | scripts/fetchDapps.js:13 | A normalised value is trimmed with only single spaces, and a falsy value gives `''`. |
| FetchDapps.CollapseWords | scripts/fetchDapps.js:13 | Replacing white-space runs gives the words of the string (its maximal non-space runs) joined by single spaces, with one space in front when it starts with white space and one behind when it has a word and ends with white space. |
| FetchDapps.NormalizeWords | scripts/fetchDapps.js:13 | `normalize(s)` is exactly the words of `s` joined by single spaces. |
| FetchDapps.WordsKeepCharacters | scripts/fetchDapps.js:13 | The words hold exactly the non-space characters of the string, in order, so normalising drops nothing but white space. |
| FetchDapps.NormalizeIdempotent | scripts/fetchDapps.js:13 | Normalising twice equals normalising once. |
| FetchDapps.UniqueSpec | scripts/fetchDapps.js:20 | `unique` keeps exactly the non-empty values, each once. |
| FetchDapps.UniqueOfClean | scripts/fetchDapps.js:20 | A list with no duplicates and no empty value is its own `unique`. |
| FetchDapps.UniquePrefix | scripts/fetchDapps.js:20 | First occurrences fix the order, so a prefix's unique values lead those of the whole list. |
| FetchDapps.MergeStepSpec | scripts/fetchDapps.js:15-43 | A nameless entry changes nothing. Otherwise the record goes under the lower-cased name, a new key is added last, and other keys are untouched. |
| FetchDapps.SameKeyMerges | scripts/fetchDapps.js:17 | Names that differ only in case land on one record. |
| FetchDapps.FirstSeenSpec | scripts/fetchDapps.js:22-28 | A first entry is stored with its category and tag lists made unique. |
| FetchDapps.CombineSpec | scripts/fetchDapps.js:31-42 | The description longer in UTF-16 code units wins and a tie keeps the old one; a falsy type or status falls back to the old one; name and source come from the new entry; the lists become ordered unions without duplicates. |
| FetchDapps.CombineCountsCodeUnits | scripts/fetchDapps.js:34-37 | Lengths are UTF-16 lengths: two astral characters (4 units) replace a 3-character description. |
| FetchDapps.DappStore.MergeEntry | scripts/fetchDapps.js:15-43 | The method performs exactly one merge step on the store. |
| FetchDapps.SkipTagsSpec | scripts/fetchDapps.js:148-155 | The first loop passes only tag lines and stops at the first line it may not skip. |
| FetchDapps.ScanEndSpec | scripts/fetchDapps.js:164-172 | The scan stops at the first line from its start that is a status, type or name line, or at the end of the lines. |
| FetchDapps.CategoryScanResult | scripts/fetchDapps.js:160-179 | A status line at the stop becomes the status, otherwise the status is kept; the `Only on Monad` lines passed are appended to the tags in order; every other line passed is added to the categories in first-insertion order. |
| FetchDapps.AddToSetSpec | scripts/fetchDapps.js:161-176 | Adding lines to the insertion-ordered category set keeps the old elements first, adds each new line once and nothing else. |
| FetchDapps.CardSpec | scripts/fetchDapps.js:141-157 | A card is read at line i iff the next line is a type and, after tag lines only, the name repeats. |
| FetchDapps.CardFields | scripts/fetchDapps.js:160-189 | The card has the name and type line; its status is the status line that stops the scan, or `''`; its tags are the skipped tag lines and then the `Only on Monad` lines scanned, in order; its categories are the other scanned lines, each once, in first-seen order. |
| FetchDapps.FallbackKeepsValid | scripts/fetchDapps.js:140-190 | The fallback pass keeps the store valid and only adds keys. |
| FetchDapps.SkipTagLines | scripts/fetchDapps.js:145-155 | The loop stops where the skip specification does and collects the lines it passed as tags. |
| FetchDapps.ScanCategoryLines | scripts/fetchDapps.js:161-179 | The loop computes the category scan. |
| FetchDapps.CardAt | scripts/fetchDapps.js:141-189 | One turn of the outer loop yields the card at line i. |
| FetchDapps.FallbackTurn | scripts/fetchDapps.js:141-189 | One turn merges the card read at line i into the store, and leaves the store alone when no card starts there. |
| FetchDapps.ParseFallback | scripts/fetchDapps.js:132-191 | The store becomes the cards at lines 0 to n - 7 merged in order, and it is unchanged for 6 lines or fewer. |
| Catalogue.SlugifySpec | src/utils/dappsData.js:3-7 | A slug has only lower-case letters, digits and single dashes, with no dash at either end. |
| Catalogue.DashRunsJoin | src/utils/dappsData.js:6 | The replacement gives the runs of `[a-z0-9]` characters joined by single dashes. There is one more dash in front when the string starts with another character, and one behind when it has a run and ends with another character. |
| Catalogue.AlnumRunsKeepCharacters | src/utils/dappsData.js:6 | The runs hold exactly the string's `[a-z0-9]` characters, in order, so the replacement drops nothing else. |
| Catalogue.SlugifyRuns | src/utils/dappsData.js:3-7 | A slug is exactly the runs of `[a-z0-9]` characters of the lower-cased value, joined by single dashes. |
| Catalogue.SlugifyIdempotent | src/utils/dappsData.js:3-7 | Slugifying a slug changes nothing. |
| Catalogue.SuffixedInjective | src/utils/dappsData.js:13 | Different counts give different `slug-count` ids. |
| Catalogue.RepeatedSlug | src/utils/dappsData.js:10-14 | Repeats of a slug get `slug`, `slug-1`, `slug-2` and so on. |
| Catalogue.SlugCounter.UniqueSlug | src/utils/dappsData.js:10-14 | The method is `uniqueSlug` as written: one counter step. |
| Catalogue.SlugIdsCollide | src/utils/dappsData.js:10-14 | As written, the slugs `a`, `a`, `a-1` get the ids `a`, `a-1`, `a-1`. |
| Catalogue.SlugIdsAppend | src/utils/dappsData.js:10-14 | The ids and counts of `uniqueSlug` calls on two runs of slugs in a row are those of the first run, then those of the second from the counts the first leaves. |
| Catalogue.SlugRegistry.UniqueSlug | src/utils/dappsData.js:10-14 | The corrected version: the id was never issued before. It is the written id whenever that one is free. |
| Catalogue.FirstFree | src/utils/dappsData.js:11-13 | The search returns the first candidate count from the start whose id is not taken. |
| Catalogue.SocialIgnoresCase | src/utils/dappsData.js:16-19 | The `/i` pattern ignores letter case. |
| Catalogue.EmptyNotSocial | src/utils/dappsData.js:16 | The default `''` is not a social link. |
| Catalogue.SeedOf | src/utils/dappsData.js:21-25 | The seed after the loop stays a 32-bit unsigned value. |
| Catalogue.SeedStepExact | src/utils/dappsData.js:24 | The intermediate sum is below 2^53, so the double arithmetic before `>>> 0` is exact. |
| Catalogue.SeededRandom | src/utils/dappsData.js:21-27 | The loop computes the seed, and the result is `seed / 2^32`, in `[0, 1)`. |
| Catalogue.RandomBaseSpec | src/utils/dappsData.js:37 | The base is `round(random * 700)`, at most 700. |
| Catalogue.MaxHintSpec | src/utils/dappsData.js:30-34 | The inferred hint is the largest positive metadata number, or 0 when there is none. |
| Catalogue.PopularityScoreSpec | src/utils/dappsData.js:29-40 | The score is between hint + boosts and hint + boosts + 700 (18 per link, 60 for only-on-Monad), and no smaller than any metadata hint plus the boosts. |
| Catalogue.WebsiteSpec | src/utils/dappsData.js:49-53 | A non-empty CSV `web` wins. Otherwise the first non-social link wins when it is not empty. Otherwise the first link is used, or `''` when there are no links (including when every link is social). |
| Catalogue.SocialLinksIndices | src/utils/dappsData.js:55 | The social links are the links at increasing positions, and those are exactly the positions of social links: a filter that keeps order. |
| Catalogue.NonEmptyIndices | src/utils/dappsData.js:57 | `filter(Boolean)` keeps the non-empty strings at increasing positions, exactly the non-empty ones. |
| Catalogue.NonEmptyAppend | src/utils/dappsData.js:57 | Filtering a concatenation filters each part. |
| Catalogue.FirstSocial | src/utils/dappsData.js:55 | The first social link heads the filtered links, and there are none when no link is social. |
| Catalogue.SocialsSpec | src/utils/dappsData.js:54-57 | The socials are the social links in their order, then a non-empty, non-social CSV `x`; nothing is dropped. The first social link comes first; without one, only that `x` remains. |
| Catalogue.MapEcosystemEntrySpec | src/utils/dappsData.js:42-84 | The item has the given id and the entry's name, is not hidden, and carries the score as votes and popularity. Its tags are the CSV tags filtered to the non-empty ones, in order (none without CSV tags); they are all the CSV tags when none is empty. |
| Catalogue.AssignIds | src/utils/dappsData.js:43-46 | Through the corrected `SlugRegistry` (not `uniqueSlug` as written): each id is the entry's slug, or its fallback id when the slug is empty, possibly with a numeric suffix; the ids are distinct and new; and when the ids `uniqueSlug` as written would give are distinct and new, the ids and counts are exactly those. |
| Catalogue.MarkHidden | src/utils/dappsData.js:88-91 | The first 12 items are marked hidden and the rest are unchanged. |
| Catalogue.HiddenSample | src/utils/dappsData.js:86-91 | An item is hidden iff it is among the first 12. |
| Catalogue.CategorySetSpec | src/utils/dappsData.js:93-98 | The set holds each non-empty category of any item, once. |
| Catalogue.CollectCategories | src/utils/dappsData.js:93-98 | The loops compute the category set. |
| Catalogue.SortStringsSpec | src/utils/dappsData.js:100 | The sort returns a sorted permutation. |
| Catalogue.CategoriesSpec | src/utils/dappsData.js:100 | After `All`, every non-empty category of any item appears once, sorted. |
| Catalogue.AllAndHiddenPartition | src/utils/dappsData.js:102-111 | Together, `All` and the hidden list hold every item once: the hidden list only hidden items, `All` only visible ones. |
| Catalogue.ByCategorySpec | src/utils/dappsData.js:104-106 | A category view holds exactly the visible items listing that category. |
| Catalogue.ByCategoryIndices | src/utils/dappsData.js:102-106 | A category view (`'All'` included) is the catalogue's entries at increasing positions, and those are exactly the positions of the entries it shows: a filter that keeps order and multiplicity. |
| DappFeed.FirstOf | src/hooks/useDappData.jsx:9 | `a ?? b ?? c` is None iff no key is present. |
| DappFeed.FirstOfAt | src/hooks/useDappData.jsx:9 | The first present key's value is taken. |
| DappFeed.FirstTruthy | src/hooks/useDappData.jsx:20 | `a \|\| b` gives the first non-empty value, or none when all are empty or absent. |
| DappFeed.NameSpec | src/hooks/useDappData.jsx:9-10 | The name is trimmed, and `Unnamed dapp` exactly when no name column is present. |
| DappFeed.CategorySpec | src/hooks/useDappData.jsx:11 | The category is trimmed, and `Other` when no category column is present. |
| DappFeed.TagsSpec | src/hooks/useDappData.jsx:33-38 | Tags are non-empty and trimmed, and joining tags with commas splits back into them. |
| DappFeed.StatusSpec | src/hooks/useDappData.jsx:28-31 | The status is `sus` on a sus or dead warning, else the raw status, else `exclusive` or `live`. |
| DappFeed.IdSpec | src/hooks/useDappData.jsx:39-41 | An explicit id wins. Otherwise an unnamed row gets none. A named row gets the runs of `[a-z0-9]` characters of the lower-cased `name-category`, joined by single dashes, with one dash for a run of other characters at either end. |
| DappFeed.RowKept | src/hooks/useDappData.jsx:82 | A row survives the filter iff its name is non-blank, or no name column is present and it has an id. |
| DappFeed.KeepSpec | src/hooks/useDappData.jsx:82 | The filter keeps exactly the items with a name and an id. |
| DappFeed.KeepAppend | src/hooks/useDappData.jsx:82 | Filtering distributes over concatenation. |
| DappFeed.LoadSpec | src/hooks/useDappData.jsx:80-82 | The loaded items are exactly the kept normalised rows, no more than the rows. |
| DappFeed.DistinctKeysSpec | src/hooks/useDappData.jsx:100-109 | The group keys are the item keys, each once, in order of first appearance. |
| DappFeed.GroupedSpec | src/hooks/useDappData.jsx:100-109 | Each group holds exactly the items with its key, in order. |
| DappFeed.GroupedPartition | src/hooks/useDappData.jsx:100-109 | The groups together hold every item once. |
| DappFeed.GroupByCategory | src/hooks/useDappData.jsx:100-109 | The loop computes the grouping, and the grouping partitions the items. |
| DappFeed.SortByTvlSpec | src/hooks/useDappData.jsx:112-113 | The sort returns a permutation in descending TVL. |
| DappFeed.TrendingSpec | src/hooks/useDappData.jsx:111-115 | Trending has at most 5 items, in descending TVL, drawn from the items. |
| DappFeed.TrendingTop | src/hooks/useDappData.jsx:111-115 | No item left out has a higher TVL than one in the list. |
| DappCards.RoundTenthSpec | src/data/dappsData.js:24 | `Math.round(score / 10)` rounds halves up. |
| DappCards.TvlLabelSpec | src/data/dappsData.js:24 | The label is `n/a` iff the score is 0; otherwise it is decimal digits of the rounded tenth followed by `k`. |
| DappCards.TvlLabelInjective | src/data/dappsData.js:24 | Equal labels mean equal rounded tenths. |
| DappCards.UserLabelRoundTrip | src/data/dappsData.js:25 | The user label is the decimal of the votes, and reading it back gives the votes. |
| DappCards.CardOfSpec | src/data/dappsData.js:14-27 | A card keeps the id and name. Its description is the entry's, or the fallback when that is empty. Its category is the first category, or `General` when there are none. Its vote link is the url, else the first link, else `''`. Its collect link is the first social, or `''`. Its colour is `palette[index % 6]`. |
| DappCards.CardCollectUrl | src/data/dappsData.js:22 | On a catalogue entry, the collect link is the entry's first social link. Without one, it is the CSV `x` when that is not social, else `''`. |
| DappCards.CardsSpec | src/data/dappsData.js:14 | There are at most 25 cards, in order, with the same ids and names. |
| DappCards.CardsColors | src/data/dappsData.js:15 | Neighbouring cards differ in colour, and colours repeat every 6 cards. |
| Placement.SeedHash | src/components/Experience.jsx:51-56 | The seed hash is a 32-bit word. |
| Placement.Mix | src/components/Experience.jsx:57-61 | One call of the generator maps a 32-bit word to a 32-bit word. |
| Placement.Fraction | src/components/Experience.jsx:61 | `(h >>> 0) / 2^32` lies in `[0, 1)`. |
| Placement.MixInverse | src/components/Experience.jsx:57-61 | The mixing step can be undone, so it is a bijection on 32-bit words. |
| Placement.MixInjective | src/components/Experience.jsx:57-61 | Different states give different next states. |
| Word32.Imul | src/components/Experience.jsx:54 | `Math.imul` is the 32-bit product, a 32-bit word. |
| Word32.Rotl13Inverse | src/components/Experience.jsx:55 | The 13-bit rotation is undone by rotating the other way. |
| Word32.XorShift16Involution | src/components/Experience.jsx:58 | `h ^ (h >>> 16)` is its own inverse. |
| Word32.XorShift13Inverse | src/components/Experience.jsx:59 | `h ^ (h >>> 13)` is undone by `UnXorShift13`. |
| Word32.ImulInverse | src/components/Experience.jsx:58-59 | Multiplying by an odd constant is undone by its inverse modulo 2^32. |
| Placement.Rng.constructor | src/components/Experience.jsx:51-56 | The generator starts at the seed hash. |
| Placement.Rng.Next | src/components/Experience.jsx:57-62 | Each call moves to the mixed state and returns its fraction. |
| Placement.DrawsPrefix | src/components/Experience.jsx:51-63 | The first n draws do not depend on how many are taken later, and each lies in `[0, 1)`. |
| Placement.SameSeedSameDraws | src/components/Experience.jsx:51-63 | Two generators on the same seed give the same draws. |
| Placement.AttemptWithSpec | src/components/Experience.jsx:167-176 | An attempt hits iff the sampler answers, and then it is placed 0.95 above the ground. |
| Placement.Attempt | src/components/Experience.jsx:167-176 | One attempt draws twice and tries the aim point. |
| Placement.FirstHitWins | src/components/Experience.jsx:166-177 | The first attempt that hits decides the position. |
| Placement.AllMissDefault | src/components/Experience.jsx:166 | When all 12 attempts miss, the box stays at `[0, 4, 0]`. |
| Placement.PlaceBox | src/components/Experience.jsx:165-177 | The loop computes the box's placement. |
| Placement.GiftBoxPositions | src/components/Experience.jsx:158-180 | There are no placements without a sampler; otherwise each dApp is placed with the seed `${id}-${index}`. |
| Placement.PlacementMapKeys | src/components/Experience.jsx:185-188 | The map's keys are exactly the placed dApps' ids. |
| Placement.PlacementMapLastWins | src/components/Experience.jsx:186-187 | For a repeated id, the last placement wins, as its x and z. |
| Placement.PublishPlacements | src/components/Experience.jsx:183-190 | Empty placements leave the store as it was; otherwise the store gets the map; the store invariant is kept. |
| QuestTracker.RoundedPercentSpec | src/components/QuestTracker.jsx:5 | `Math.round(100p/t)` is the integer r with `2tr - t <= 200p < 2tr + t`. |
| QuestTracker.RoundedPercentUnique | src/components/QuestTracker.jsx:5 | Only one integer satisfies that bracket. |
| QuestTracker.ProgressPercentageSpec | src/components/QuestTracker.jsx:5 | It is at most 100, non-negative for non-negative progress, and 100 iff `200p >= 199t`. Below 100 it is the rounded percentage. |
| QuestTracker.ProgressPercentageMonotone | src/components/QuestTracker.jsx:5 | More progress never shows a lower percentage. |
| QuestTracker.KeptSpec | src/components/QuestTracker.jsx:6 | `filter(Boolean)` keeps the non-empty class names, and nothing iff all are falsy. |
| QuestTracker.CxSpec | src/components/QuestTracker.jsx:6 | `cx` is `''` iff all arguments are falsy, and space-free names split back out of it. |
| QuestTracker.OrderedLayout | src/components/QuestTracker.jsx:16-20 | The ordered list is the claimable views, then the active, then the upcoming. |
| QuestTracker.OrderedRanks | src/components/QuestTracker.jsx:16-20 | The ordered list is sorted by section and holds no claimed-and-completed view. |
| QuestTracker.OrderedPicks | src/components/QuestTracker.jsx:16-20 | Each section of the ordered list is that section of the quest list, in order. |
| QuestTracker.OrderedEmpty | src/components/QuestTracker.jsx:21 | The ordered list is empty iff every view is completed and claimed. |
| QuestTracker.DisplayedQuestsSpec | src/components/QuestTracker.jsx:15-30 | With an empty ordered list, the first maxItems definitions are shown as locked with no progress; otherwise the first maxItems of the ordered list are shown. |
| QuestTracker.QuestFlagsSpec | src/components/QuestTracker.jsx:67-95 | A locked bar is 0 wide, otherwise the percentage wide. Each section shows exactly its label, and only a claimable quest can claim. |
| QuestTracker.ClaimButtonMatchesStore | src/components/QuestTracker.jsx:98-109 | A displayed quest is a definition, and it shows the claim button iff the store has it completed and not claimed. |
| QuestTracker.XpLineSpec | src/components/QuestTracker.jsx:32-33 | The XP needed is 150 and the XP into the level is between 0 and 149. |
| ArtPortrait.CategoriesSpec | src/components/ArtPortrait.jsx:12-16 | The chips are the category list if given, else the single category if truthy, else none. |
| ArtPortrait.SocialIconIsFirstMatch | src/components/ArtPortrait.jsx:20-30 | The if-chain is the first matching rule of the icon table on the lower-cased link. |
| ArtPortrait.FirstMatchSpec | src/components/ArtPortrait.jsx:20-30 | Rule k's icon is chosen iff rule k matches and no earlier rule does; the globe is chosen iff none matches. |
| ArtPortrait.SocialIconSpec | src/components/ArtPortrait.jsx:20-30 | For a link, the same iff statements hold for the icon chooser. |
| ArtPortrait.SocialIconIgnoresCase | src/components/ArtPortrait.jsx:21 | The icon does not depend on letter case. |
| ArtPortrait.XBeforeDiscord | src/components/ArtPortrait.jsx:22-24 | A link mentioning both twitter and discord gets the X icon. |
| ArtPortrait.SocialRowSpec | src/components/ArtPortrait.jsx:247-258 | The social row appears iff the socials are a non-empty list, with one icon per link, in order. |
| ArtPortrait.PressSpec | src/components/ArtPortrait.jsx:102-116 | A press invokes the handler with the dApp id iff the wallet is connected; otherwise it alerts. |
| ArtPortrait.SessionGuard | src/components/ArtPortrait.jsx:102-116 | Over any click sequence, the handlers run exactly for the connected presses, in order. |
| Strings.TrimSpec | scripts/mergeDappData.mjs:31 | The result has no white space at either end. It is the string itself when that has none, and it is empty iff the string is all white space. |
| Strings.TrimBounds | scripts/mergeDappData.mjs:31 | The result is the infix `s[i..j]`, with only white space before `i` and after `j`. |
| Strings.TrimInfix | scripts/mergeDappData.mjs:31 | Every string is its trimmed form with white space on both sides. |
| Strings.TrimIdempotent | scripts/mergeDappData.mjs:63 | Trimming twice equals trimming once. |
| Strings.SplitJoin | src/hooks/useDappData.jsx:35 | Splitting a join on any separator set that holds the joining character, with no separator in the parts, gives the parts back. |
| Strings.NatToStringRoundTrip | src/data/dappsData.js:24-25 | Decimal rendering reads back to the number. |
| Strings.NatToStringInjective | src/utils/dappsData.js:13 | Different numbers render differently. |

## Left out

- **Fetching, reading, writing and logging.** Fetching, file reading and
  writing, JSON parsing, `console` output and `process.exitCode` are left
  out. Each script's logic takes its input as a parameter and returns
  its output.
- **DOM selection.** The DOM selection of `parseFromDom` in
  `scripts/fetchDapps.js` needs an HTML parser. Only its `mergeEntry`
  calls are modelled. `parseFallback` starts from the already split,
  trimmed and non-empty text lines. The final `localeCompare` sort of the
  store values is left out.
- **Case mapping.** Case mapping (`toLowerCase`, `toUpperCase`) is ASCII
  only. Non-ASCII letters are left as they are.
- **Sort order.** `localeCompare` in the category sort is replaced by
  code-point order on strings.
- **Numbers.** `Number(...)` in the CSV feed is a parameter `toNumber`,
  and a NaN TVL is treated as 0. `parseInt` of metadata hints is modelled
  on decimal digit strings.
- **Raw rows and unused fields.** The `raw` row kept on feed items, extra
  keys spread from an earlier `csvMeta`, and the constant
  `contractAddress: null` are not modelled.
- **Random ids and clocks.** `crypto.randomUUID()` or `Math.random()`
  (the fallback id) and `Date.now()` (the visit time) are parameters.
  `registerVisit` reads `Date.now()` twice, once for the visit log and
  once for `lastVisitAt`; the model passes one `now` for both, so the two
  times are always equal.
- **Missing names.** `normalizeName(null)` and `slugify(undefined)` throw
  in the source. The model's `NormalizeName` takes a missing name to be
  `undefined`, which the default parameter turns into `""`; a `null` name
  is not modelled. A catalogue name is always a string, so `Slugify` has
  no missing case.
- **Trigonometry and terrain.** The trigonometry that turns two draws
  into an aim point (`cos`, `sin`, `sqrt`, `Math.PI`) and the terrain
  height sampler are abstract function parameters. The draws, the retry
  loop, the hit test and the 0.95 lift are modelled.
- **Floats.** Floating point is modelled with reals. The level bar's
  `progress` ratio from `getLevelInfo` and its width are left out;
  `GetLevelInfo` returns the integer parts.
- DappFeed.TrendingSpec: it does not state that equal TVLs keep their
  input order, although `Array.prototype.sort` is stable.
- QuestTracker.ProgressPercentageSpec: requires a positive target, since
  a zero target gives NaN or Infinity in the source. It uses exact
  rational arithmetic instead of floating-point division.
- QuestTracker.DisplayedQuestsSpec: `maxItems` is a natural number; a
  negative `slice` bound is not modelled.
- DiscoveryStore.DistanceSteps: holds for exact reals only. With
  JavaScript doubles, two additions can round differently from one
  addition of the sum (progress 1e16 plus 1 twice stays 1e16, plus 2
  gives 1e16 + 2).
- DiscoveryStore.Store.CollectDapp: the `?? { target: 5, ... }` default
  of a missing `collectDeFi` goal is not modelled, because the store
  always holds one.
- **The portrait's other behaviour.** The p5.js drawing, the rotating
  chog messages and the wallet hooks in `src/components/ArtPortrait.jsx`
  are left out. The browser `alert` is an `Alerted` outcome.

## Findings

| source | as written | input that shows it | evidently intended | confidence | as-written member | corrected member |
|---|---|---|---|---|---|---|
| src/utils/dappsData.js:10-14 | `uniqueSlug` counts each slug separately, so a suffixed id can equal another dApp's plain slug | names "A", "a!" and "A 1" slug to `a`, `a`, `a-1`, which get the ids `a`, `a-1`, `a-1` | every dApp gets a distinct id | not executed | Catalogue.SlugIdsCollide | Catalogue.SlugRegistry.UniqueSlug |

# Snack-Squad: quests, daily quests, achievements, food spawning and skins

A Dafny model of the game-rules core of Snack-Squad. This is a Unity game in which the player and two bots collect fruit, fast food and cake on a tiled map. The model covers:

- **The persistent ledger** (`GameData`). Gold, total food and quest counts, per-food lifetime counters and per-food daily counters are kept in `PlayerPrefs`, together with the current and unlocked skins, the achievement document and the date of the last daily reset.
- **Session quests.** A `FoodCollectionQuest` definition asks for a random selection of distinct items of one food category. A `QuestProgress` record collects those items. `Quest_Manager` keeps up to a fixed number of active records, one per definition, and moves completed records to a completed list. When auto-assignment is on, it then offers a random replacement.
- **Daily quests.** `DailyQuestSO` is the definition and `DailyQuestProgress` the record. `DailyQuest_Manager` does the following:
  - handles the new day;
  - assigns a "complete normal quests" quest and a "collect a specific food" quest;
  - removes expired quests;
  - advances records on collection and quest-completion events;
  - saves and loads through `DailyQuestSaveSystem`.
- **Achievements.** `AchievementSO`, `AchievementProgress` and `Achievement_Manager`. Collect achievements follow the lifetime ledger count; quest achievements follow the lifetime quest total. Records are saved and loaded by id.
- **Good foods.** What a collider touching a food writes to the ledger and announces.
- **The map.** `FoodSpawner` fills empty `Tile`s with pooled foods and tracks the good and bad counts. A tile empties itself through the food's `OnRemoved` callback.
- **The skin carousel of `MainMenuUI`.** Index wrap-around, the deferred save of the current skin, and buying a skin with gold.
- **Utility libraries.** `HPUtils` (integer rounding, quicksort, insertion sort, two shuffles, array swap, layer-mask test, pair check) and `AV_Extension` (random picks, first maximum and minimum).

## How the model is built

- **Mutable objects become classes.** C# objects whose fields the code updates become Dafny classes with the same fields:
  - records, managers and the spawner;
  - tiles and foods;
  - the `PlayerPrefs` store and the menu.

  Their methods carry `modifies` clauses. Each method's `ensures` ties the new state to a specification function, such as `AddProgressSpec`, `AddFoodCollectedSpec`, `CheckedEmptyTiles` or `Purchase`. Lemmas then prove what the game promises about that function.
- **Values become datatypes.** Value types, enums, save entries and event payloads are datatypes. `List<T>` fields are `seq` fields that the methods reassign. `HPUtils`' in-place algorithms work on `array`.
- **The environment becomes parameters:**
  - `DateTime.Now` is a parameter `now`.
  - `Random.Range`, `Random.value`, `rng.Next` and the cryptographic byte provider are oracle functions `nat -> nat`. A draw from `[0, n)` is read as `oracle(t) % n`.
  - `PlayerPrefs` is a store of integer, string and document maps. `JsonUtility` documents are kept as decoded values.
  - Observer notifications are returned as out-parameters or left to the caller. For example, the list of records a daily event moved to the completed list is returned.
- **Exceptions.** C# exceptions the code can throw are modelled as `None` or a `threw` flag:
  - division by zero and overflow in `ConvertToMultipleOfNumber`;
  - indexing an empty list in `RandomItem` and in the auto-spawn step;
  - an index outside the skin list in the carousel.

## Behaviour of the code as written, captured by the model

- A player's collection is written to the lifetime ledger twice:
  - once by the food on contact (`GoodFood.cs:44`);
  - once more by `Achievement_Manager.ProcessFoodCollection` (`Achievement_Manager.cs:148`).

  Fruits land under the category key first and under the item key second. `AchievementManagement.PlayerCollectionCountedTwice` states this.
- `Fruit` does not override `GetSpecificFoodType`, so a fruit is recorded only under its category on contact (`Foods.CategoryOnlyLedgerKey`). `Fruit.MatchType` and the other overrides call the base test on the item enum, so `MatchType` is true only for the base class (`Foods.MatchType`).
- Bots write the ledger too (`Foods.BotCollectionsReachLedger`). Only the player's touch removes the food.
- `Shuffle` waits for a byte below `n * (255 / n)`. From 256 elements on, that bound is 0, so the loop never ends (`HPUtils.LongListNeverAccepted`). `Shuffle` is proved only for arrays whose draws are eventually accepted.
- `RandomListNotDuplicateItem` never removes a used index, so it can repeat elements just like `RandomListCanDuplicateItem` (`AVExtension.NotDuplicateCanRepeat`).
- A tile's callback clears the tile whatever food it holds. A stale callback from an earlier food empties a tile that holds a newer one (`Tiles.StaleCallbackEmptiesTile`).
- `GoodFood` announces `OnGoodFoodCollected` with a `FoodCollectionData`, not a `Food`. So `FoodSpawner.OnRemoveFood` never shrinks the spawned list for good foods, yet always lowers the good count. It does so for any collider, including bots.
- A cake session gets no prefabs. The spawner's auto-spawn step then indexes an empty prefab list and throws; `FoodSpawning.AutoSpawnOutcome` reports this as `stopped`.
- A stored current skin whose code falls outside the skin list throws in the carousel's selectability test when that skin is locked (`MainMenu.MainMenuUI.Selectable`).
- Generated daily quests are not part of the catalog, so their saved entries are dropped on load (`DailyQuestManagement.UnknownNameDropped`).
- Two achievement records with the same id both load into the first record (`AchievementManagement.SharedIdLoadsIntoFirst`).

## Model

| member | source | states |
|---|---|---|
| Mathf.Clamp | Assets/_Project/Scripts/GamePlay/DailyQuest/QuestProgress.cs:53 | `Mathf.Clamp` as the records use it: the result lies in `[min, max]` when `min <= max`, a value already in range is kept, and the result is always the value or one of the two bounds |
| Seqs.Take | Assets/_Project/Scripts/GamePlay/Quest/FoodCollectionQuest.cs:50 | LINQ `Take(n)` is a prefix of the list holding `n` elements, all of them when there are fewer, none for `n <= 0` |
| Seqs.RemoveFirst | Assets/_Project/Scripts/GamePlay/Map/FoodSpawner.cs:225 | `List.Remove(x)` takes out exactly the first occurrence of `x` and leaves the list unchanged when `x` is absent |
| Seqs.RemoveFirstIsWithout | Assets/_Project/Scripts/GamePlay/Managers/DailyQuest_Manager.cs:262 | in a list without repetitions, removing the first occurrence removes the element altogether |
| Text.ParseLong | Assets/_Project/Scripts/GamePlay/Achievement/AchievementProgress.cs:155 | `long.TryParse` with `NumberStyles.Integer`: white space around an optional sign and decimal digits is skipped, and it succeeds only with a value in the 64-bit range |
| Text.PaddedNumberParses | Assets/_Project/Scripts/GamePlay/Achievement/AchievementProgress.cs:155 | white space before and after a number does not change what `long.TryParse` reads |
| Text.NoDigitNoNumber | Assets/_Project/Scripts/GamePlay/Achievement/AchievementProgress.cs:155 | a text with no decimal digit in it never reads as a number |
| Text.ParseLongOfIntToString | Assets/_Project/Scripts/GamePlay/Achievement/AchievementProgress.cs:150-157 | every 64-bit integer written with `ToString` reads back with `long.TryParse` as itself |
| Text.ProgressTextRoundTrip | Assets/_Project/Scripts/GamePlay/Achievement/AchievementProgress.cs:115 | a `"{current}/{target}"` text of 64-bit numbers determines both numbers: it reads back as the same pair |
| Text.ZeroProgressText | Assets/_Project/Scripts/GamePlay/Achievement/AchievementProgress.cs:114 | the text shown without a definition reads as zero of zero |
| Dates.ParseDate | Assets/_Project/Scripts/GamePlay/DailyQuest/DailyQuestSaveData.cs:38 | `DateTime.TryParse` of a "yyyy-MM-dd" text yields only dates `DateTime` can hold |
| Dates.ParseFormatDate | Assets/_Project/Scripts/GamePlay/DailyQuest/DailyQuestSaveData.cs:33-41 | a date written as "yyyy-MM-dd" parses back to the same date |
| Dates.FormatParseDate | Assets/_Project/Scripts/GamePlay/DailyQuest/DailyQuestSaveData.cs:38-41 | the model's date parser, which reads only the "yyyy-MM-dd" form, accepts a text only when it is exactly the "yyyy-MM-dd" text of the date it yields |
| Dates.FormatDateInjective | Assets/_Project/Scripts/Others/GameData.cs:125-128 | different dates have different day texts, so comparing the texts compares the days |
| Enums.ItemCodes | Assets/_Project/Scripts/GamePlay/Quest/FoodCollectionQuest.cs:57-75 | the values of each item enum are the nine codes 1 to 9 in order, and a value is listed exactly when it is a declared code |
| Enums.Box | Assets/_Project/Scripts/GamePlay/Foods/FastFood.cs:13-16 | an item code boxed as its category's enum is never null, and prints as the item's name |
| Enums.FoodTypeCodes | Assets/_Project/Scripts/GamePlay/Enums.cs:37-42 | the categories have codes 1 to 3, and both their codes and their names tell them apart |
| Enums.SharedItemNames | Assets/_Project/Scripts/GamePlay/Enums.cs:44-81 | Lemon and Lime are both a fruit and a cake, and Lime is code 7 in both, so names identify items only within a category |
| Enums.ItemNamesDistinct | Assets/_Project/Scripts/GamePlay/Enums.cs:44-81 | within one category, distinct declared codes have distinct names |
| Prefs.PlayerPrefs.SetInt | Assets/_Project/Scripts/Others/GameData.cs:11 | writing an integer key changes that key only |
| Prefs.PlayerPrefs.constructor | Assets/_Project/Scripts/Others/GameData.cs:7-19 | a store that has never been written holds no key, so every getter returns its default |
| Prefs.PlayerPrefs.SetString | Assets/_Project/Scripts/Others/GameData.cs:131 | writing a string key changes that key only |
| Prefs.PlayerPrefs.SetDocument | Assets/_Project/Scripts/GamePlay/DailyQuest/DailyQuestSaveData.cs:54-55 | storing a serialised document changes that key only |
| Prefs.PlayerPrefs.DeleteKey | Assets/_Project/Scripts/Others/GameData.cs:80 | the key is gone afterwards, and nothing else changes |
| Prefs.PlayerPrefs.DeleteAll | Assets/_Project/Scripts/Others/GameData.cs:219 | the store is empty afterwards |
| Prefs.SetIntGetInt | Assets/_Project/Scripts/Others/GameData.cs:7-18 | a written key reads back the value written, a string read of an integer key gives the default, and every other key reads as before |
| GameData.KeyShapes | Assets/_Project/Scripts/Others/GameData.cs:157-172 | every lifetime key starts "Food_", every daily key starts "DailyFood_", and a daily key is "Daily" followed by the lifetime key of the same food |
| GameData.NotFoodKeyByFirstChar | Assets/_Project/Scripts/Others/GameData.cs:11 | keys such as the gold, total and skin keys are neither lifetime nor daily food keys |
| GameData.SetGold | Assets/_Project/Scripts/Others/GameData.cs:9-14 | the `Gold` setter writes the gold key only |
| GameData.Increment | Assets/_Project/Scripts/Others/GameData.cs:157-162 | a counter key is read with default 0 and written back one higher, and no other key changes |
| GameData.AddFoodCollected | Assets/_Project/Scripts/Others/GameData.cs:151-177 | the store after a collection is `AddFoodCollectedSpec`: the total, then the lifetime key, then the daily key each rise by one |
| GameData.AddFoodCollectedCounts | Assets/_Project/Scripts/Others/GameData.cs:151-177 | one collection adds exactly 1 to the total, the food's lifetime counter and its daily counter, and changes no other integer |
| GameData.AddFoodCollectedKeepsDailyWithinLifetime | Assets/_Project/Scripts/Others/GameData.cs:151-177 | a collection keeps the ledger invariant: lifetime counters are non-negative and each daily counter is at most its lifetime counter |
| GameData.AddNormalQuestCompleted | Assets/_Project/Scripts/Others/GameData.cs:62-71 | the store after `AddNormalQuestCompleted` is its specification |
| GameData.AddNormalQuestCompletedCounts | Assets/_Project/Scripts/Others/GameData.cs:62-71 | today's and the lifetime quest count each rise by one, and gold is untouched |
| GameData.ClearCategoryDailyFoodData | Assets/_Project/Scripts/Others/GameData.cs:93-117 | one pass of the category loop deletes exactly that category's general daily key and the daily key of each of its items |
| GameData.ClearDailyFoodData | Assets/_Project/Scripts/Others/GameData.cs:88-120 | the three passes delete exactly the daily keys of all three categories |
| GameData.ResetDailyProgress | Assets/_Project/Scripts/Others/GameData.cs:78-86 | the reset deletes today's quest count and every daily food key |
| GameData.ResetDailyClearsDailyCounters | Assets/_Project/Scripts/Others/GameData.cs:78-120 | after the reset, today's quest count and every general and per-item daily counter read 0 |
| GameData.ResetDailyKeepsLifetime | Assets/_Project/Scripts/Others/GameData.cs:78-120 | the reset leaves lifetime counters, gold, totals, the skin, the reset date and the achievement document untouched |
| GameData.ResetDailyKeepsDailyWithinLifetime | Assets/_Project/Scripts/Others/GameData.cs:78-120 | the reset keeps the ledger invariant |
| GameData.ResetKeysShape | Assets/_Project/Scripts/Others/GameData.cs:80-115 | apart from today's quest count, the reset deletes only daily food keys |
| GameData.CheckAndResetDailyProgress | Assets/_Project/Scripts/Others/GameData.cs:123-134 | the store after the day check is its specification, with today's "yyyy-MM-dd" text |
| GameData.CheckAndResetOncePerDay | Assets/_Project/Scripts/Others/GameData.cs:123-134 | the check records today, a second check on the same day changes nothing, and on another day it resets |
| GameData.SetCurrentSkin | Assets/_Project/Scripts/Others/GameData.cs:139-143 | the `CurrentSkin` setter writes the skin code under its key only |
| GameData.UnlockSkin | Assets/_Project/Scripts/Others/GameData.cs:204-208 | unlocking writes 1 under the skin's key only |
| GameData.LockSkin | Assets/_Project/Scripts/Others/GameData.cs:210-214 | locking writes 0 under the skin's key only |
| GameData.SkinFlags | Assets/_Project/Scripts/Others/GameData.cs:199-214 | after unlocking a skin it reads unlocked, after locking it reads locked, and every other declared skin reads as before |
| GameData.SetAchievementData | Assets/_Project/Scripts/Others/GameData.cs:50-54 | the achievement setter writes the achievement document only |
| GameData.ClearAllData | Assets/_Project/Scripts/Others/GameData.cs:217-221 | everything is deleted |
| GameData.ClearAllDataDefaults | Assets/_Project/Scripts/Others/GameData.cs:7-221 | after clearing, every getter returns its default (0 gold and counts, skin `Skin0`, no unlocked skin, empty achievement text), and the ledger invariant holds |
| Foods.MatchType | Assets/_Project/Scripts/GamePlay/Foods/Fruit.cs:9-16 | the virtual `MatchType` is true only for the base class given its own category, because each override also asks the base test to accept an item enum |
| Foods.GetSpecificFoodType | Assets/_Project/Scripts/GamePlay/Foods/GoodFood.cs:60-65 | the specific type is null for the base class and for `Fruit`, which does not override it, and the boxed item for fast food and cake |
| Foods.GetSpecificItemValue | Assets/_Project/Scripts/GamePlay/Managers/Quest_Manager.cs:272-296 | the item code when the runtime class is the one of the food's category, otherwise -1 |
| Foods.SpecificItemValueMismatch | Assets/_Project/Scripts/GamePlay/Managers/Quest_Manager.cs:272-296 | -1 is returned exactly when the class does not match the category, and any other result is a declared item code |
| Foods.OnTriggerEnter | Assets/_Project/Scripts/GamePlay/Foods/GoodFood.cs:19-52 | a touch always announces the collection with the collector's type. The ledger is written and the player event raised exactly when the collider is the player or a bot with a controller, and only the player's touch removes the food |
| Foods.CollectorCases | Assets/_Project/Scripts/GamePlay/Foods/GoodFood.cs:21-39 | the player tag gives the main player, a bot with a controller gives that bot, anything else counts as no player |
| Foods.BotCollectionsReachLedger | Assets/_Project/Scripts/GamePlay/Foods/GoodFood.cs:30-44 | a bot's touch counts as a player collection and so writes the ledger |
| Foods.OnlyPlayerCollectionsProcessed | Assets/_Project/Scripts/GamePlay/Managers/Quest_Manager.cs:239-252 | managers process the player's collection with its own food and a bare food, but never a bot's collection or another payload |
| Foods.CategoryOnlyLedgerKey | Assets/_Project/Scripts/GamePlay/Foods/GoodFood.cs:54-58 | fruits and base-class foods are recorded under the category-only counter |
| Foods.FastFoodLedgerKey | Assets/_Project/Scripts/GamePlay/Foods/FastFood.cs:13-16 | fast food is recorded under `Food_FastFood_<item name>` |
| ScoreTable.GameDataManager.InitializePlayerScores | Assets/_Project/Scripts/GamePlay/Managers/GameData_Manager.cs:46-52 | the table afterwards holds exactly the three player types at 0, so the total is 0 |
| ScoreTable.GameDataManager.constructor | Assets/_Project/Scripts/GamePlay/Managers/GameData_Manager.cs:9 | the dictionary starts empty, so every score reads 0 until initialised |
| ScoreTable.GameDataManager.GetPlayerScore | Assets/_Project/Scripts/GamePlay/Managers/GameData_Manager.cs:15 | the stored score, or 0 for a type without an entry |
| ScoreTable.GameDataManager.CurrentScore | Assets/_Project/Scripts/GamePlay/Managers/GameData_Manager.cs:12 | the main player's score, 0 without an entry |
| ScoreTable.GameDataManager.TotalScore | Assets/_Project/Scripts/GamePlay/Managers/GameData_Manager.cs:20-31 | the loop over the dictionary's values returns the sum of all stored scores |
| ScoreTable.GameDataManager.AddScore | Assets/_Project/Scripts/GamePlay/Managers/GameData_Manager.cs:61-86 | the type's score rises by the amount, with a missing entry created at 0 first, and the announced score and total are the new ones |
| ScoreTable.GameDataManager.AddPlayerScore | Assets/_Project/Scripts/GamePlay/Managers/GameData_Manager.cs:55-58 | the one-argument overload credits the main player |
| ScoreTable.AddScoreRaisesTotal | Assets/_Project/Scripts/GamePlay/Managers/GameData_Manager.cs:61-85 | adding to one type raises the total by exactly that amount and leaves every other type's score alone |
| FoodCollectionQuestDef.ShuffleBy | Assets/_Project/Scripts/GamePlay/Quest/FoodCollectionQuest.cs:50 | `OrderBy(Random.value)` yields a permutation of its input, keeping an input without repetitions free of them |
| FoodCollectionQuestDef.FoodCollectionQuest.constructor | Assets/_Project/Scripts/GamePlay/Quest/FoodCollectionQuest.cs:10-21 | a definition holds the serialised field values it is given |
| FoodCollectionQuestDef.ItemNames | Assets/_Project/Scripts/GamePlay/Quest/FoodCollectionQuest.cs:96-109 | one name per code, in order, each the member name of that item in the category |
| FoodCollectionQuestDef.FoodCollectionQuest.TargetAmount | Assets/_Project/Scripts/GamePlay/Quest/FoodCollectionQuest.cs:28 | the target is the number of selected items once any are selected, `itemCount` before |
| FoodCollectionQuestDef.FoodCollectionQuest.IsSpecificItemRequired | Assets/_Project/Scripts/GamePlay/Quest/FoodCollectionQuest.cs:111-114 | an item is required exactly when it is one of the selected items |
| FoodCollectionQuestDef.FoodCollectionQuest.GetRequiredItemNames | Assets/_Project/Scripts/GamePlay/Quest/FoodCollectionQuest.cs:116-124 | the loop returns the names of the selected items in selection order |
| FoodCollectionQuestDef.FoodCollectionQuest.UpdateQuestTextForSpecificItems | Assets/_Project/Scripts/GamePlay/Quest/FoodCollectionQuest.cs:77-94 | with a selection, the description becomes "Collect " followed by the English enumeration of the names ("A", "A and B", "A, B and C"); without one it is left alone |
| FoodCollectionQuestDef.FoodCollectionQuest.ItemNamesText | Assets/_Project/Scripts/GamePlay/Quest/FoodCollectionQuest.cs:81-91 | the loop joins the names of the given items, in order, into their English enumeration |
| FoodCollectionQuestDef.ListTextIsEnglishList | Assets/_Project/Scripts/GamePlay/Quest/FoodCollectionQuest.cs:82-91 | the separator loop builds exactly the English enumeration |
| FoodCollectionQuestDef.FoodCollectionQuest.GenerateRandomSpecificItems | Assets/_Project/Scripts/GamePlay/Quest/FoodCollectionQuest.cs:36-55 | `itemCount` is lowered to the category's nine items when larger, and the selection becomes that many distinct declared items, taken in shuffled order |
| FoodCollectionQuestDef.SelectionFromShuffle | Assets/_Project/Scripts/GamePlay/Quest/FoodCollectionQuest.cs:50-51 | a prefix of a shuffle of distinct items holds distinct items, all of them drawn from the input |
| FoodCollectionQuestDef.GeneratedTarget | Assets/_Project/Scripts/GamePlay/Quest/FoodCollectionQuest.cs:43-51 | when the category has enough items, a generated quest asks for exactly `itemCount` of them |
| FoodCollectionQuestDef.ItemCodesDistinct | Assets/_Project/Scripts/GamePlay/Quest/FoodCollectionQuest.cs:57-75 | the available items of a category are pairwise distinct |
| FoodCollectionQuestDef.FoodCollectionQuest.OnValidate | Assets/_Project/Scripts/GamePlay/Quest/FoodCollectionQuest.cs:157-171 | `itemCount` is clamped into `[2, 6]`, and both rewards are raised to 0 when negative |
| QuestProgressRecord.QuestProgress.AddProgress | Assets/_Project/Scripts/GamePlay/DailyQuest/QuestProgress.cs:47-61 | the new state is `AddProgressSpec`, and a completion is reported exactly when the record goes from open to completed |
| QuestProgressRecord.QuestProgress.constructor | Assets/_Project/Scripts/GamePlay/DailyQuest/QuestProgress.cs:36-44 | a new record for a quest is open and unclaimed, with no items and amount 0, started at `now` |
| QuestProgressRecord.QuestProgress.CompleteQuest | Assets/_Project/Scripts/GamePlay/DailyQuest/QuestProgress.cs:125-140 | the record is completed at `now`, and nothing else changes |
| QuestProgressRecord.AddProgressBounds | Assets/_Project/Scripts/GamePlay/DailyQuest/QuestProgress.cs:47-61 | on an open record the amount stays in `[0, target]`, and the record completes exactly when it reaches the target |
| QuestProgressRecord.QuestProgress.SetProgress | Assets/_Project/Scripts/GamePlay/DailyQuest/QuestProgress.cs:112-123 | the new state is `SetProgressSpec`, and a completion is reported exactly on the open-to-completed change |
| QuestProgressRecord.SetProgressBounds | Assets/_Project/Scripts/GamePlay/DailyQuest/QuestProgress.cs:112-123 | on an open record the amount stays in `[0, target]`, and the record completes exactly at the target |
| QuestProgressRecord.QuestProgress.AddSpecificItem | Assets/_Project/Scripts/GamePlay/DailyQuest/QuestProgress.cs:64-95 | the new state and the result are `AddSpecificItemSpec`, and a well-formed collected list stays well formed |
| QuestProgressRecord.AddSpecificItemKeepsWellFormed | Assets/_Project/Scripts/GamePlay/DailyQuest/QuestProgress.cs:76-83 | the collected items stay distinct and within the selection |
| QuestProgressRecord.CompletedIsFrozen | Assets/_Project/Scripts/GamePlay/DailyQuest/QuestProgress.cs:49 | a completed record ignores all three kinds of progress, and `AddSpecificItem` returns false |
| QuestProgressRecord.UnrequiredItemResets | Assets/_Project/Scripts/GamePlay/DailyQuest/QuestProgress.cs:69-73 | an item the quest does not require resets the whole record and returns false |
| QuestProgressRecord.RepeatedItemIgnored | Assets/_Project/Scripts/GamePlay/DailyQuest/QuestProgress.cs:76-79 | an item already collected changes nothing and returns false |
| QuestProgressRecord.SameItemTwiceCountsOnce | Assets/_Project/Scripts/GamePlay/DailyQuest/QuestProgress.cs:76-83 | collecting the same required item twice raises the amount by exactly one |
| QuestProgressRecord.AddedItemCounts | Assets/_Project/Scripts/GamePlay/DailyQuest/QuestProgress.cs:82-92 | after a successful add, the amount equals the number of collected items, which never exceeds the target, and the record is completed exactly at the target |
| QuestProgressRecord.QuestProgress.ResetProgress | Assets/_Project/Scripts/GamePlay/DailyQuest/QuestProgress.cs:164-174 | every field returns to a fresh record's value, restarted at `now` |
| QuestProgressRecord.QuestProgress.ClaimReward | Assets/_Project/Scripts/GamePlay/DailyQuest/QuestProgress.cs:142-162 | a completed, unclaimed record becomes claimed and pays the positive parts of its score reward and bonus to the main player; any other record pays nothing |
| QuestProgressRecord.ClaimOnce | Assets/_Project/Scripts/GamePlay/DailyQuest/QuestProgress.cs:144-146 | only a completed, unclaimed record changes, and a second claim changes nothing |
| QuestProgressRecord.PayRewardsAmounts | Assets/_Project/Scripts/GamePlay/DailyQuest/QuestProgress.cs:149-157 | the main player's score and the total rise by the positive parts of both amounts, and no other score changes |
| QuestProgressRecord.QuestProgress.IsSpecificItemNeeded | Assets/_Project/Scripts/GamePlay/DailyQuest/QuestProgress.cs:217-221 | an item is needed exactly when it is required and not yet collected |
| QuestManagement.FirstOfDef | Assets/_Project/Scripts/GamePlay/Managers/Quest_Manager.cs:331-334 | `FirstOrDefault` finds the first record of the definition exactly when one exists |
| QuestManagement.QuestManager.constructor | Assets/_Project/Scripts/GamePlay/Managers/Quest_Manager.cs:11-22 | a manager starts with no session, no session quests and empty active and completed lists |
| QuestManagement.QuestManager.FilterQuestsForSession | Assets/_Project/Scripts/GamePlay/Managers/Quest_Manager.cs:65-83 | the session list holds the catalog entries of the session category, in order |
| QuestManagement.OfCategoryMembers | Assets/_Project/Scripts/GamePlay/Managers/Quest_Manager.cs:65-83 | a definition is in the session list exactly when it is in the catalog with the session category |
| QuestManagement.OfCategoryIdempotent | Assets/_Project/Scripts/GamePlay/Managers/Quest_Manager.cs:65-83 | filtering twice is filtering once, and an empty catalog gives an empty session |
| QuestManagement.QuestManager.AddQuest | Assets/_Project/Scripts/GamePlay/Managers/Quest_Manager.cs:157-186 | a quest is added exactly when it is non-null, the list has room and the definition has no active record; a definition without a selection first gets a fresh random one |
| QuestManagement.QuestManager.RemoveQuest | Assets/_Project/Scripts/GamePlay/Managers/Quest_Manager.cs:188-200 | the first record of the definition is removed exactly when there is one, and the list keeps one record per definition |
| QuestManagement.RemoveKeepsDistinctDefs | Assets/_Project/Scripts/GamePlay/Managers/Quest_Manager.cs:197 | taking a record out keeps one record per definition and leaves its definition without a record |
| QuestManagement.QuestManager.CompleteQuest | Assets/_Project/Scripts/GamePlay/Managers/Quest_Manager.cs:202-224 | an active record moves to the end of the completed list, and a replacement is added only under auto-assignment with room; a record that is not active changes nothing |
| QuestManagement.CompletedDefinitionCanReturn | Assets/_Project/Scripts/GamePlay/Managers/Quest_Manager.cs:207-222 | the completed definition is no longer active, so the random replacement may be the same definition |
| QuestManagement.QuestManager.AssignRandomQuests | Assets/_Project/Scripts/GamePlay/Managers/Quest_Manager.cs:132-155 | assignment only appends fresh records in their initial state, never beyond capacity and never a second record of one definition, and does nothing without a set-up session or session definitions; the k-th appended record is of the definition the k-th draw `pick(k)` picks, and the loop stops only when the list is full or the current draw's definition already has an active record |
| QuestManagement.QuestManager.InitializeWithSessionFoodType | Assets/_Project/Scripts/GamePlay/Managers/Quest_Manager.cs:52-63 | the session category is set, the session list is filtered for it, and quests are assigned only when auto-assignment is on; then the appended records follow the draws `pick(k)` until the list is full or a draw is refused |
| QuestManagement.QuestManager.ProcessFoodCollection | Assets/_Project/Scripts/GamePlay/Managers/Quest_Manager.cs:254-270 | records of other categories, or any record when the item value is -1, are untouched; each record of the food's category receives `AddSpecificItem` with the food's item code; the records moved are exactly those the item completes, they leave the active list and join the end of the completed list in list order, and the active list gains at most one replacement per moved record, fresh records of session definitions in their initial state, none without auto-assignment |
| QuestManagement.QuestManager.CollectItem | Assets/_Project/Scripts/GamePlay/Managers/Quest_Manager.cs:260-267 | the record's new state is `AddSpecificItemSpec` of its old state; when that completes it, it leaves the active list for the end of the completed list and a replacement may follow as `CompleteQuest` says, otherwise no list changes; the other active records stay active |
| QuestManagement.QuestManager.OnGoodFoodCollected | Assets/_Project/Scripts/GamePlay/Managers/Quest_Manager.cs:239-252 | a bot's collection or a foreign payload changes no record and no list. A player's collection or a bare food has `ProcessFoodCollection`'s effect: each matching record takes its `AddSpecificItem` step, the others keep their state, exactly the records that complete move to the end of the completed list, and their replacements are appended to the active list |
| QuestManagement.QuestManager.ClaimQuestReward | Assets/_Project/Scripts/GamePlay/Managers/Quest_Manager.cs:226-233 | the first completed record of the definition is claimed. When it was completed and unclaimed, the main player's score gains the positive parts of the score reward and the bonus; otherwise, or without such a record, no score changes |
| QuestManagement.QuestManager.GetActiveQuestProgress | Assets/_Project/Scripts/GamePlay/Managers/Quest_Manager.cs:331-334 | null exactly when the definition has no active record, otherwise its first active record |
| QuestManagement.QuestManager.GetCompletedQuestProgress | Assets/_Project/Scripts/GamePlay/Managers/Quest_Manager.cs:336-339 | null exactly when the definition has no completed record, otherwise its first completed record |
| QuestManagement.QuestManager.IsQuestActive | Assets/_Project/Scripts/GamePlay/Managers/Quest_Manager.cs:341-344 | true exactly when some active record belongs to the definition |
| QuestManagement.QuestManager.IsQuestCompleted | Assets/_Project/Scripts/GamePlay/Managers/Quest_Manager.cs:346-349 | true exactly when some completed record belongs to the definition |
| QuestManagement.QuestManager.GetQuestsByFoodType | Assets/_Project/Scripts/GamePlay/Managers/Quest_Manager.cs:351-354 | the result holds exactly the active records of the category |
| QuestManagement.RecordsOfCategoryMembers | Assets/_Project/Scripts/GamePlay/Managers/Quest_Manager.cs:351-354 | the records of a category are exactly the listed records of that category |
| DailyQuestDef.DailyQuestSO.RequiredSpecificCode | Assets/_Project/Scripts/GamePlay/DailyQuest/DailyQuest.cs:15-18 | the required item is the field that belongs to the required category |
| DailyQuestDef.DailyQuestSO.constructor | Assets/_Project/Scripts/GamePlay/Managers/DailyQuest_Manager.cs:147-164 | a definition built in code starts from the serialised defaults and takes the given type, target, category and reward |
| DailyQuestDef.DailyQuestSO.GetSpecificFoodName | Assets/_Project/Scripts/GamePlay/DailyQuest/DailyQuest.cs:61-74 | the name is the required item's enum member name in the required category |
| DailyQuestDef.DailyQuestSO.OnValidate | Assets/_Project/Scripts/GamePlay/DailyQuest/DailyQuest.cs:34-42 | the target is raised to at least 1 and the reward to at least 0; nothing else changes |
| DailyQuestDef.DailyQuestSO.GenerateQuestDescription | Assets/_Project/Scripts/GamePlay/DailyQuest/DailyQuest.cs:45-59 | each quest type gets its own name and description texts, and the requirements are untouched |
| DailyQuestDef.CollectorNamesDistinct | Assets/_Project/Scripts/GamePlay/DailyQuest/DailyQuest.cs:56 | distinct items of a category give distinct "<item> Collector" names |
| DailyQuestProgressRecord.DailyQuestProgress.constructor | Assets/_Project/Scripts/GamePlay/DailyQuest/DailyQuestProgress.cs:41-48 | the load constructor stores the saved values as given, without clamping or consistency checks |
| DailyQuestProgressRecord.DailyQuestProgress.IsExpired | Assets/_Project/Scripts/GamePlay/DailyQuest/DailyQuestProgress.cs:28 | a record is expired exactly when today is after its assignment day |
| DailyQuestProgressRecord.ExpiryByDate | Assets/_Project/Scripts/GamePlay/DailyQuest/DailyQuestProgress.cs:28 | expiry compares calendar days only, never holds on the assignment day, and once true stays true |
| DailyQuestProgressRecord.DailyQuestProgress.AddProgress | Assets/_Project/Scripts/GamePlay/DailyQuest/DailyQuestProgress.cs:50-63 | the new state is `AddProgressSpec`, and a completion is reported exactly on the open-to-completed change |
| DailyQuestProgressRecord.DailyQuestProgress.CompleteQuest | Assets/_Project/Scripts/GamePlay/DailyQuest/DailyQuestProgress.cs:78-83 | the record is completed at `now`, and nothing else changes |
| DailyQuestProgressRecord.DailyQuestProgress.SetProgress | Assets/_Project/Scripts/GamePlay/DailyQuest/DailyQuestProgress.cs:65-76 | the new state is `SetProgressSpec`, and a completion is reported exactly on the open-to-completed change |
| DailyQuestProgressRecord.FrozenWhenCompletedOrExpired | Assets/_Project/Scripts/GamePlay/DailyQuest/DailyQuestProgress.cs:52 | a completed or expired record ignores progress |
| DailyQuestProgressRecord.ProgressBounds | Assets/_Project/Scripts/GamePlay/DailyQuest/DailyQuestProgress.cs:50-76 | on an open, current record progress stays in `[0, target]`, and completion comes exactly at the target |
| DailyQuestProgressRecord.DailyQuestProgress.ClaimReward | Assets/_Project/Scripts/GamePlay/DailyQuest/DailyQuestProgress.cs:85-99 | a completed, unclaimed record becomes claimed and pays its gold reward when positive; any other record pays nothing |
| DailyQuestProgressRecord.ClaimPaysOnce | Assets/_Project/Scripts/GamePlay/DailyQuest/DailyQuestProgress.cs:85-99 | gold rises by a positive reward exactly once; a second claim changes nothing |
| DailyQuestProgressRecord.DailyQuestProgress.GetProgressText | Assets/_Project/Scripts/GamePlay/DailyQuest/DailyQuestProgress.cs:101-104 | the text reads back as the current progress and the target |
| DailyQuestProgressRecord.DailyQuestProgress.ResetProgress | Assets/_Project/Scripts/GamePlay/DailyQuest/DailyQuestProgress.cs:129-137 | the record reopens on the new day with progress 0 and its completion time kept |
| DailyQuestProgressRecord.ResetReopens | Assets/_Project/Scripts/GamePlay/DailyQuest/DailyQuestProgress.cs:129-137 | after a reset the record is open, unclaimed and not expired on the reset day |
| DailyQuestSave.NewSaveDataDated | Assets/_Project/Scripts/GamePlay/DailyQuest/DailyQuestSaveData.cs:11-15 | a fresh save has no entries, and its date text reads back as today |
| DailyQuestSave.NewSaveData | Assets/_Project/Scripts/GamePlay/DailyQuest/DailyQuestSaveData.cs:11-15 | a fresh save has no entries |
| DailyQuestSave.NewEntry | Assets/_Project/Scripts/GamePlay/DailyQuest/DailyQuestSaveData.cs:27-34 | a new entry copies the name, progress and flags |
| DailyQuestSave.NewEntryAssignedDate | Assets/_Project/Scripts/GamePlay/DailyQuest/DailyQuestSaveData.cs:27-43 | `GetAssignedDate` on a new entry recovers its assignment day at midnight |
| DailyQuestSave.GetAssignedDate | Assets/_Project/Scripts/GamePlay/DailyQuest/DailyQuestSaveData.cs:36-43 | the parsed day at midnight, or `now` when the text is not a "yyyy-MM-dd" date |
| DailyQuestSaveSystem.SaveDailyQuestData | Assets/_Project/Scripts/GamePlay/DailyQuest/DailyQuestSaveData.cs:50-62 | the save is stored under its key, and nothing else changes |
| DailyQuestSaveSystem.LoadDailyQuestData | Assets/_Project/Scripts/GamePlay/DailyQuest/DailyQuestSaveData.cs:64-81 | the stored save, or a fresh one dated `now` when the key is missing or its text is empty, null or malformed |
| DailyQuestSaveSystem.ClearSaveData | Assets/_Project/Scripts/GamePlay/DailyQuest/DailyQuestSaveData.cs:83-87 | the save's key is deleted |
| DailyQuestSaveSystem.HasSaveData | Assets/_Project/Scripts/GamePlay/DailyQuest/DailyQuestSaveData.cs:89-92 | true exactly when something is stored under the key |
| DailyQuestSaveSystem.SaveLoadRoundTrip | Assets/_Project/Scripts/GamePlay/DailyQuest/DailyQuestSaveData.cs:50-81 | a saved value loads back unchanged, and saving leaves every other key alone |
| DailyQuestSaveSystem.ClearForgets | Assets/_Project/Scripts/GamePlay/DailyQuest/DailyQuestSaveData.cs:83-92 | after a clear there is no save, and a load gives a fresh, empty save dated today |
| DailyQuestSaveSystem.UnusableSaveFallsBack | Assets/_Project/Scripts/GamePlay/DailyQuest/DailyQuestSaveData.cs:70-80 | text that is empty, decodes to null or fails to decode loads as a fresh save |
| DailyQuestLists.FirstOfDef | Assets/_Project/Scripts/GamePlay/Managers/DailyQuest_Manager.cs:455-458 | `FirstOrDefault` finds the first record of a definition exactly when one exists |
| DailyQuestLists.RemoveDef | Assets/_Project/Scripts/GamePlay/Managers/DailyQuest_Manager.cs:245-255 | removal takes out one record when the definition has one, and leaves the list alone otherwise |
| DailyQuestLists.RemoveDefKeeps | Assets/_Project/Scripts/GamePlay/Managers/DailyQuest_Manager.cs:245-255 | removal keeps the list free of repeated records and definitions, and leaves the definition without a record |
| DailyQuestLists.RemoveDefCount | Assets/_Project/Scripts/GamePlay/Managers/DailyQuest_Manager.cs:245-255 | a removal takes exactly one occurrence of the definition out of the list's definitions |
| DailyQuestLists.RemoveAllDefs | Assets/_Project/Scripts/GamePlay/Managers/DailyQuest_Manager.cs:135-138 | removing each listed record's definition, one each, empties the list, even when definitions repeat |
| DailyQuestLists.RemovingExpiredKeepsUnexpired | Assets/_Project/Scripts/GamePlay/Managers/DailyQuest_Manager.cs:268-275 | with one record per definition, removing the expired records' definitions keeps exactly the unexpired records, in order |
| DailyQuestLists.ExpiredOfMembers | Assets/_Project/Scripts/GamePlay/Managers/DailyQuest_Manager.cs:270-274 | every record is either expired or unexpired, and both lists hold only records of the list |
| DailyQuestManagement.DoesMatchRequiredFood | Assets/_Project/Scripts/GamePlay/Managers/DailyQuest_Manager.cs:315-344 | a food matches exactly when its category is the required one, its runtime class belongs to that category, and its item is the required item |
| DailyQuestManagement.FindByName | Assets/_Project/Scripts/GamePlay/Managers/DailyQuest_Manager.cs:404 | the first catalog definition with the entry's name, or none when no definition carries it |
| DailyQuestManagement.LoadRecord | Assets/_Project/Scripts/GamePlay/Managers/DailyQuest_Manager.cs:404-419 | no record for a name outside the catalog; otherwise a new record for the first matching definition in the saved state, routed to completed, active or nowhere |
| DailyQuestManagement.LoadEntries | Assets/_Project/Scripts/GamePlay/Managers/DailyQuest_Manager.cs:402-421 | the loop builds a record for each entry bound to the active list and each bound to the completed list, in order, and the new active records repeat no earlier one |
| DailyQuestManagement.LoadPartition | Assets/_Project/Scripts/GamePlay/Managers/DailyQuest_Manager.cs:412-419 | each entry goes to at most one of the two lists |
| DailyQuestManagement.SavedRecordLoadsBack | Assets/_Project/Scripts/GamePlay/Managers/DailyQuest_Manager.cs:397-449 | a record saved under a catalog name loads back with its progress and flags, and its assignment day at midnight: completed into the completed list, otherwise into the active list unless expired |
| DailyQuestManagement.UnknownNameDropped | Assets/_Project/Scripts/GamePlay/Managers/DailyQuest_Manager.cs:404-405 | an entry whose name no catalog definition carries is dropped, whatever its state |
| DailyQuestManagement.EmptyCatalogDropsAll | Assets/_Project/Scripts/GamePlay/Managers/DailyQuest_Manager.cs:399-400 | with an empty catalog nothing is loaded |
| DailyQuestManagement.EntriesOfShape | Assets/_Project/Scripts/GamePlay/Managers/DailyQuest_Manager.cs:433-446 | each saved entry carries its record's quest name and state |
| DailyQuestManagement.LoginDateRoundTrip | Assets/_Project/Scripts/GamePlay/Managers/DailyQuest_Manager.cs:384-391 | a saved login date loads back as that day at midnight, and a fresh save's as today |
| DailyQuestManagement.DailyQuestManager.CheckAndAssignDailyQuests | Assets/_Project/Scripts/GamePlay/Managers/DailyQuest_Manager.cs:95-114 | the login date becomes today; on a new day expired completed records go and, under auto-assignment, a fresh assignment stays in place. On the same day, quests are assigned only when none is active, and expired ones are removed |
| DailyQuestManagement.DailyQuestManager.constructor | Assets/_Project/Scripts/GamePlay/Managers/DailyQuest_Manager.cs:11-26 | a manager starts with empty lists, the minimum login date and no save, within its capacity |
| DailyQuestManagement.DailyQuestManager.FreshAssignmentUnexpired | Assets/_Project/Scripts/GamePlay/Managers/DailyQuest_Manager.cs:132-143 | no record of a fresh assignment at `now` is expired at `now` |
| DailyQuestManagement.DailyQuestManager.StartDay | Assets/_Project/Scripts/GamePlay/Managers/DailyQuest_Manager.cs:97-110 | a new day is detected exactly when the login day differs from today, and a reassignment happens exactly under auto-assignment on a new day or with no active quest |
| DailyQuestManagement.DailyQuestManager.RemoveExpiredAfterAssignment | Assets/_Project/Scripts/GamePlay/Managers/DailyQuest_Manager.cs:109-113 | removing expired quests right after a fresh assignment removes nothing |
| DailyQuestManagement.DailyQuestManager.HandleNewDay | Assets/_Project/Scripts/GamePlay/Managers/DailyQuest_Manager.cs:116-130 | the login date becomes today's midnight, the expired completed records go, and the active list changes only under auto-assignment |
| DailyQuestManagement.DailyQuestManager.AssignRandomDailyQuests | Assets/_Project/Scripts/GamePlay/Managers/DailyQuest_Manager.cs:132-143 | the active list becomes a fresh assignment of new records: the completionist quest, then the collector quest drawn by the rolls, as far as the capacity allows |
| DailyQuestManagement.DailyQuestManager.RemoveAllActive | Assets/_Project/Scripts/GamePlay/Managers/DailyQuest_Manager.cs:135-138 | removing each active record's definition empties the active list |
| DailyQuestManagement.DailyQuestManager.CreateCompleteQuestsDaily | Assets/_Project/Scripts/GamePlay/Managers/DailyQuest_Manager.cs:145-165 | a new "Quest Completionist" definition (2 normal quests, 100 gold) is added exactly when the list has room |
| DailyQuestManagement.CompletionistQuestTexts | Assets/_Project/Scripts/GamePlay/Managers/DailyQuest_Manager.cs:145-165 | the completionist quest has the description its type calls for, and no food collection advances it |
| DailyQuestManagement.DailyQuestManager.CreateCollectSpecificFoodDaily | Assets/_Project/Scripts/GamePlay/Managers/DailyQuest_Manager.cs:167-223 | a new collector definition (10 of a drawn item of a drawn category, 50 gold) is added exactly when the list has room |
| DailyQuestManagement.CollectorQuestMatches | Assets/_Project/Scripts/GamePlay/Managers/DailyQuest_Manager.cs:167-223 | the drawn item is a declared item, and the collector quest matches exactly the foods of its category whose class and item are the drawn ones |
| DailyQuestManagement.DailyQuestManager.AddDailyQuest | Assets/_Project/Scripts/GamePlay/Managers/DailyQuest_Manager.cs:225-243 | a quest is added exactly when it is non-null, the list has room and the definition has no active record |
| DailyQuestManagement.DailyQuestManager.RemoveDailyQuest | Assets/_Project/Scripts/GamePlay/Managers/DailyQuest_Manager.cs:245-255 | the first record of the definition is removed exactly when there is one |
| DailyQuestManagement.DailyQuestManager.CompleteDailyQuest | Assets/_Project/Scripts/GamePlay/Managers/DailyQuest_Manager.cs:257-266 | an active record moves from the active list to the end of the completed list; a record that is not active changes nothing |
| DailyQuestManagement.DailyQuestManager.RemoveExpiredQuests | Assets/_Project/Scripts/GamePlay/Managers/DailyQuest_Manager.cs:268-275 | for each expired active record, the first record of its definition is removed, and without expired records nothing changes |
| DailyQuestManagement.DailyQuestManager.ClearExpiredCompletedQuests | Assets/_Project/Scripts/GamePlay/Managers/DailyQuest_Manager.cs:277-280 | the completed list keeps exactly its unexpired records, in order |
| DailyQuestManagement.DailyQuestManager.OnGoodFoodCollected | Assets/_Project/Scripts/GamePlay/Managers/DailyQuest_Manager.cs:286-299 | a bot's collection or a foreign payload changes nothing. For the player's collection or a bare food, each active record takes its event step, exactly the records that complete are returned, and they leave the active list for the end of the completed list, in order |
| DailyQuestManagement.DailyQuestManager.ProcessSpecificFoodCollection | Assets/_Project/Scripts/GamePlay/Managers/DailyQuest_Manager.cs:301-313 | each active collector record the food matches gains one unit, and those this completes move to the completed list in order |
| DailyQuestManagement.DailyQuestManager.NotifyNormalQuestCompleted | Assets/_Project/Scripts/GamePlay/Managers/DailyQuest_Manager.cs:489-498 | each active completionist record gains one unit, and those this completes move to the completed list |
| DailyQuestManagement.DailyQuestManager.ApplyToActive | Assets/_Project/Scripts/GamePlay/Managers/DailyQuest_Manager.cs:303-312 | over a copy of the active list, each advanced record ends in its event step's state; the completed ones leave the active list and are appended to the completed list |
| DailyQuestManagement.DailyQuestManager.AdvanceRecord | Assets/_Project/Scripts/GamePlay/Managers/DailyQuest_Manager.cs:307-311 | the record gains one unit and moves to the completed list exactly when this completes it; the active list stays free of repetitions and within its limits |
| DailyQuestManagement.EntriesOf | Assets/_Project/Scripts/GamePlay/Managers/DailyQuest_Manager.cs:430-446 | one save entry per record, in order |
| DailyQuestManagement.DailyQuestManager.SaveDailyQuestData | Assets/_Project/Scripts/GamePlay/Managers/DailyQuest_Manager.cs:424-449 | the save holds today's date, an entry per active record, then one per unexpired completed record; it is stored under the save key |
| DailyQuestManagement.DailyQuestManager.SavedEntries | Assets/_Project/Scripts/GamePlay/Managers/DailyQuest_Manager.cs:430-446 | the two loops produce the active records' entries followed by the unexpired completed records' entries |
| DailyQuestManagement.DailyQuestManager.LoadDailyQuestData | Assets/_Project/Scripts/GamePlay/Managers/DailyQuest_Manager.cs:379-395 | the save is read (or a fresh one), its parsed login date (or today) is taken, and its entries are appended to the lists |
| DailyQuestManagement.DailyQuestManager.LoadActiveDailyQuests | Assets/_Project/Scripts/GamePlay/Managers/DailyQuest_Manager.cs:397-422 | the existing lists are kept as prefixes, and the loaded records bound for each list are appended in entry order; nothing happens with an empty catalog |
| DailyQuestManagement.DailyQuestManager.GetActiveDailyQuestProgress | Assets/_Project/Scripts/GamePlay/Managers/DailyQuest_Manager.cs:455-458 | null exactly when the definition has no active record, otherwise its first one |
| DailyQuestManagement.DailyQuestManager.GetCompletedDailyQuestProgress | Assets/_Project/Scripts/GamePlay/Managers/DailyQuest_Manager.cs:460-463 | null exactly when the definition has no completed record, otherwise its first one |
| DailyQuestManagement.DailyQuestManager.IsDailyQuestActive | Assets/_Project/Scripts/GamePlay/Managers/DailyQuest_Manager.cs:465-468 | true exactly when some active record belongs to the definition |
| DailyQuestManagement.DailyQuestManager.IsDailyQuestCompleted | Assets/_Project/Scripts/GamePlay/Managers/DailyQuest_Manager.cs:470-473 | true exactly when some completed record belongs to the definition |
| DailyQuestManagement.DailyQuestManager.GetDailyQuestsByType | Assets/_Project/Scripts/GamePlay/Managers/DailyQuest_Manager.cs:475-478 | the result holds exactly the active records of the type |
| DailyQuestManagement.RecordsOfTypeMembers | Assets/_Project/Scripts/GamePlay/Managers/DailyQuest_Manager.cs:475-478 | the records of a type are exactly the listed records of that type |
| AchievementDef.RemoveChar | Assets/_Project/Scripts/GamePlay/Achievement/AchievementSO.cs:49 | `Replace(c, "")` leaves no occurrence of the character, keeps every other character value, never lengthens the text, and leaves a text without the character as it is |
| AchievementDef.RemoveCharCounts | Assets/_Project/Scripts/GamePlay/Achievement/AchievementSO.cs:49 | `Replace(c, "")` drops exactly the occurrences of the character: every other character keeps its number of occurrences |
| AchievementDef.RemoveCharConcat | Assets/_Project/Scripts/GamePlay/Achievement/AchievementSO.cs:49 | removing from a concatenation is removing from each part, so the kept characters stay in their order |
| AchievementDef.IdFromNameShape | Assets/_Project/Scripts/GamePlay/Achievement/AchievementSO.cs:49 | a derived id has no space or parenthesis, keeps every other character of the name with its number of occurrences, and a name without them is its own id |
| AchievementDef.IdFromNameConcat | Assets/_Project/Scripts/GamePlay/Achievement/AchievementSO.cs:49 | the id of a concatenation is the concatenation of the ids, so the kept characters of the name stay in their order |
| AchievementDef.IdFromNameIdempotent | Assets/_Project/Scripts/GamePlay/Achievement/AchievementSO.cs:49 | deriving the id twice gives the same id |
| AchievementDef.AchievementSO.OnValidate | Assets/_Project/Scripts/GamePlay/Achievement/AchievementSO.cs:44-58 | an empty id is derived from the asset name and a set one is kept; the target is raised to at least 1 and the reward to at least 0 |
| AchievementDef.AchievementSO.constructor | Assets/_Project/Scripts/GamePlay/Achievement/AchievementSO.cs:9-28 | an asset holds the serialised field values it is given, with empty texts and not hidden |
| AchievementDef.AchievementSO.RequiredSpecificCode | Assets/_Project/Scripts/GamePlay/Achievement/AchievementSO.cs:18-24 | the required item is the field that belongs to the required category |
| AchievementDef.AchievementSO.GetSpecificFoodName | Assets/_Project/Scripts/GamePlay/Achievement/AchievementSO.cs:77-90 | the name is the required item's member name in the required category |
| AchievementDef.AchievementSO.GenerateDescription | Assets/_Project/Scripts/GamePlay/Achievement/AchievementSO.cs:61-75 | each achievement type gets its own name and description texts, and the requirements are untouched |
| AchievementSave.NewEntry | Assets/_Project/Scripts/GamePlay/Achievement/AchievementProgress.cs:144-151 | a new entry copies the fields, and its date text reads back through `GetUnlockedDate` as the same date |
| AchievementSave.GetUnlockedDate | Assets/_Project/Scripts/GamePlay/Achievement/AchievementProgress.cs:153-160 | the parsed 64-bit value, white space around it allowed, or `MinValue` when the text is not a long |
| AchievementSave.UnparsableDateIsMinValue | Assets/_Project/Scripts/GamePlay/Achievement/AchievementProgress.cs:159 | a date text with no decimal digit in it (empty, `"never"`, blank) gives `MinValue` |
| AchievementSave.PaddedDateReadsBack | Assets/_Project/Scripts/GamePlay/Achievement/AchievementProgress.cs:153-160 | a saved date number with white space around it still reads back as the same date |
| AchievementProgressRecord.AchievementProgress.Target | Assets/_Project/Scripts/GamePlay/Achievement/AchievementProgress.cs:62 | the attached definition's target, or none when no definition is attached |
| AchievementProgressRecord.AchievementProgress.constructor | Assets/_Project/Scripts/GamePlay/Achievement/AchievementProgress.cs:43-50 | the load constructor stores the saved values as given, with no definition attached |
| AchievementProgressRecord.AchievementProgress.UnlockAchievement | Assets/_Project/Scripts/GamePlay/Achievement/AchievementProgress.cs:87-95 | a locked record unlocks at `now`; an unlocked one is unchanged; the unlock is reported exactly when it happens |
| AchievementProgressRecord.AchievementProgress.SetAchievementSO | Assets/_Project/Scripts/GamePlay/Achievement/AchievementProgress.cs:52-55 | the definition is attached and the record state is unchanged |
| AchievementProgressRecord.AchievementProgress.AddProgress | Assets/_Project/Scripts/GamePlay/Achievement/AchievementProgress.cs:57-71 | the new state is `AddProgressSpec`, and an unlock is reported exactly on the locked-to-unlocked change |
| AchievementProgressRecord.AchievementProgress.SetProgress | Assets/_Project/Scripts/GamePlay/Achievement/AchievementProgress.cs:73-85 | the new state is `SetProgressSpec`, and an unlock is reported exactly on the locked-to-unlocked change |
| AchievementProgressRecord.FrozenWhenUnlockedOrDetached | Assets/_Project/Scripts/GamePlay/Achievement/AchievementProgress.cs:59-60 | an unlocked record, or one without a definition, ignores progress |
| AchievementProgressRecord.ProgressBounds | Assets/_Project/Scripts/GamePlay/Achievement/AchievementProgress.cs:57-85 | on a locked record progress stays in `[0, target]`, and the record unlocks exactly at the target, stamped `now` |
| AchievementProgressRecord.AddProgressMonotone | Assets/_Project/Scripts/GamePlay/Achievement/AchievementProgress.cs:57-71 | adding a non-negative amount never lowers progress |
| AchievementProgressRecord.UnlockOnce | Assets/_Project/Scripts/GamePlay/Achievement/AchievementProgress.cs:87-95 | once unlocked, no operation relocks the record or moves its unlock date |
| AchievementProgressRecord.AchievementProgress.ClaimReward | Assets/_Project/Scripts/GamePlay/Achievement/AchievementProgress.cs:97-110 | an unlocked, unclaimed, attached record becomes claimed and pays its gold reward when positive |
| AchievementProgressRecord.ClaimPaysOnce | Assets/_Project/Scripts/GamePlay/Achievement/AchievementProgress.cs:97-110 | a claim changes the record exactly when it is unlocked, unclaimed and attached; a second claim changes nothing |
| AchievementProgressRecord.AchievementProgress.GetProgressText | Assets/_Project/Scripts/GamePlay/Achievement/AchievementProgress.cs:112-116 | the text reads back as zero of zero without a definition, and as progress and target with one |
| AchievementProgressRecord.AchievementProgress.GetStatusText | Assets/_Project/Scripts/GamePlay/Achievement/AchievementProgress.cs:118-125 | the status is the record's status text |
| AchievementProgressRecord.StatusLifecycle | Assets/_Project/Scripts/GamePlay/Achievement/AchievementProgress.cs:118-125 | "In Progress" exactly while locked, "Completed" exactly when unlocked and unclaimed, "Claimed" exactly when both |
| AchievementProgressRecord.EntryRoundTrip | Assets/_Project/Scripts/GamePlay/Managers/Achievement_Manager.cs:236-276 | saving a record and loading its entry restores the same id and state |
| AchievementManagement.AchievementSpecificType | Assets/_Project/Scripts/GamePlay/Managers/Achievement_Manager.cs:131-146 | the manager's specific type is the food's item boxed as its category's enum when the class matches the category, null otherwise |
| AchievementManagement.CheckSpecificFoodMatch | Assets/_Project/Scripts/GamePlay/Managers/Achievement_Manager.cs:177-192 | a match exactly when the boxed type is the required item of the required category |
| AchievementManagement.FirstWithId | Assets/_Project/Scripts/GamePlay/Managers/Achievement_Manager.cs:293-296 | the first record with the id, found exactly when some record has it |
| AchievementManagement.AchievementManager.InitializeAchievements | Assets/_Project/Scripts/GamePlay/Managers/Achievement_Manager.cs:91-107 | one new record per catalog definition, in catalog order, each fresh with its definition attached |
| AchievementManagement.AchievementManager.constructor | Assets/_Project/Scripts/GamePlay/Managers/Achievement_Manager.cs:11-14 | a manager over a catalog starts with no records |
| AchievementManagement.AchievementManager.Defs | Assets/_Project/Scripts/GamePlay/Managers/Achievement_Manager.cs:91-107 | the definitions attached to the records, position by position |
| AchievementManagement.AchievementManager.OnFoodCollected | Assets/_Project/Scripts/GamePlay/Managers/Achievement_Manager.cs:113-126 | a bot's collection or a foreign payload changes neither records nor the store |
| AchievementManagement.AchievementManager.ProcessFoodCollection | Assets/_Project/Scripts/GamePlay/Managers/Achievement_Manager.cs:128-152 | the ledger records the collection under the manager's specific type, then the matching achievements are updated from the new count |
| AchievementManagement.AchievementManager.UpdateFoodAchievements | Assets/_Project/Scripts/GamePlay/Managers/Achievement_Manager.cs:154-175 | each locked collect achievement of the food's category and item takes the lifetime count; every other record is unchanged |
| AchievementManagement.AchievementManager.UpdateFoodRecord | Assets/_Project/Scripts/GamePlay/Managers/Achievement_Manager.cs:156-173 | one pass of the loop sets the `i`-th record to its food step and leaves the later records alone |
| AchievementManagement.FoodStepTracksLedger | Assets/_Project/Scripts/GamePlay/Managers/Achievement_Manager.cs:154-175 | a targeted achievement's progress is the clamped lifetime count, and it unlocks exactly when the count reaches the target |
| AchievementManagement.AchievementManager.OnQuestCompleted | Assets/_Project/Scripts/GamePlay/Managers/Achievement_Manager.cs:194-207 | the quest total rises by one, and each locked quest achievement is set to the new total |
| AchievementManagement.AchievementManager.UpdateQuestRecord | Assets/_Project/Scripts/GamePlay/Managers/Achievement_Manager.cs:198-205 | one pass of the loop sets the `i`-th record to its quest step and leaves the later records alone |
| AchievementManagement.QuestStepTracksTotal | Assets/_Project/Scripts/GamePlay/Managers/Achievement_Manager.cs:194-207 | a locked quest achievement unlocks exactly when the total reaches its target |
| AchievementManagement.UnlockedRecordsUntouched | Assets/_Project/Scripts/GamePlay/Managers/Achievement_Manager.cs:161-204 | an unlocked record is left exactly as it was by both updates |
| AchievementManagement.PlayerCollectionCountedTwice | Assets/_Project/Scripts/GamePlay/Managers/Achievement_Manager.cs:148 | a player's collection adds two to the total, and fast food and cake add two to the same lifetime item key |
| AchievementManagement.AchievementManager.SaveAchievementProgress | Assets/_Project/Scripts/GamePlay/Managers/Achievement_Manager.cs:228-246 | one entry per record, in list order, is stored as the achievement document |
| AchievementManagement.AchievementManager.BuildSaveList | Assets/_Project/Scripts/GamePlay/Managers/Achievement_Manager.cs:230-242 | the list built holds, position by position, each record's id and state as a save entry |
| AchievementManagement.EntriesOf | Assets/_Project/Scripts/GamePlay/Managers/Achievement_Manager.cs:232-242 | one entry per record, in order, each carrying that record id and state |
| AchievementManagement.AchievementManager.LoadAchievementProgress | Assets/_Project/Scripts/GamePlay/Managers/Achievement_Manager.cs:248-287 | an unusable document changes nothing; otherwise the record states become `ApplyEntries` of the entries, with ids and definitions kept |
| AchievementManagement.AchievementManager.LoadEntries | Assets/_Project/Scripts/GamePlay/Managers/Achievement_Manager.cs:257-281 | the loop over the decoded entries leaves ids and definitions alone and sets the record states to `ApplyEntries` of the entries |
| AchievementManagement.LoadedRecord | Assets/_Project/Scripts/GamePlay/Managers/Achievement_Manager.cs:263-275 | the record built from an entry is new, carries the entry id and the given definition, and is in the saved state |
| AchievementManagement.LoadSavedPrefix | Assets/_Project/Scripts/GamePlay/Managers/Achievement_Manager.cs:257-281 | with distinct ids, loading the entries saved for the first records restores those records and leaves the rest as they were |
| AchievementManagement.SaveLoadRoundTrip | Assets/_Project/Scripts/GamePlay/Managers/Achievement_Manager.cs:228-287 | with distinct ids, loading what was saved restores exactly the saved states |
| AchievementManagement.SharedIdLoadsIntoFirst | Assets/_Project/Scripts/GamePlay/Managers/Achievement_Manager.cs:257-281 | two records sharing an id: both entries load into the first, and the second keeps its state |
| AchievementManagement.UnknownIdsIgnored | Assets/_Project/Scripts/GamePlay/Managers/Achievement_Manager.cs:257-281 | entries with unknown ids change nothing |
| AchievementManagement.UnnamedRecordKept | Assets/_Project/Scripts/GamePlay/Managers/Achievement_Manager.cs:257-281 | a record that no entry names keeps its state |
| AchievementManagement.LastEntryWins | Assets/_Project/Scripts/GamePlay/Managers/Achievement_Manager.cs:257-281 | a record ends in the state of the last entry with its id |
| AchievementManagement.AchievementManager.GetAchievement | Assets/_Project/Scripts/GamePlay/Managers/Achievement_Manager.cs:293-296 | null exactly when no record has the id, otherwise the first record with it |
| AchievementManagement.AchievementManager.ClaimAchievementReward | Assets/_Project/Scripts/GamePlay/Managers/Achievement_Manager.cs:298-302 | an unknown id changes nothing; otherwise the first record with the id is claimed |
| AchievementManagement.AchievementManager.GetUnlockedCount | Assets/_Project/Scripts/GamePlay/Managers/Achievement_Manager.cs:304-307 | the number of unlocked records, between 0 and the number of records |
| AchievementManagement.CountUnlocked | Assets/_Project/Scripts/GamePlay/Managers/Achievement_Manager.cs:306 | the number of unlocked states is at most the number of states |
| AchievementManagement.CountUnlockedMonotone | Assets/_Project/Scripts/GamePlay/Managers/Achievement_Manager.cs:304-307 | the count does not fall while no record loses its unlock |
| AchievementManagement.AchievementManager.GetTotalCount | Assets/_Project/Scripts/GamePlay/Managers/Achievement_Manager.cs:309-312 | the number of records, which bounds the unlocked count |
| AchievementManagement.AchievementManager.ClearAchievementData | Assets/_Project/Scripts/GamePlay/Managers/Achievement_Manager.cs:321-329 | the stored document becomes the empty text, and the records stay as they are |
| HPUtils.ConvertToMultipleOfNumber | Assets/_External/Extensions/HPUtils.cs:54-59 | fails exactly on division by zero and on the one 32-bit overflow; otherwise the result is a multiple of `num2` with the sign of `num1`, within `num2` of `num1` toward zero |
| HPUtils.TruncDivRoundsTowardZero | Assets/_External/Extensions/HPUtils.cs:56-57 | C#'s truncating division times the divisor is a multiple that keeps the sign of `num1` and is no larger in size |
| HPUtils.Swap | Assets/_External/Extensions/HPUtils.cs:194-199 | the two positions exchange their values, and nothing else changes |
| HPUtils.SwapPermutes | Assets/_External/Extensions/HPUtils.cs:194-199 | exchanging two positions permutes the sequence |
| HPUtils.Partition | Assets/_External/Extensions/HPUtils.cs:78-92 | the pivot ends at the returned index, with smaller elements left of it and the others right of it; the slice is permuted and the rest untouched |
| HPUtils.QuickSort | Assets/_External/Extensions/HPUtils.cs:69-93 | `arr[low..high]` ends sorted and a permutation of what it held, and positions outside it are untouched |
| HPUtils.SortedPartsJoin | Assets/_External/Extensions/HPUtils.cs:73-75 | sorted halves around a partition's pivot make a sorted permutation of the slice |
| HPUtils.InsertionSort | Assets/_External/Extensions/HPUtils.cs:96-109 | the array ends sorted and a permutation of what it held |
| HPUtils.InsertKey | Assets/_External/Extensions/HPUtils.cs:100-107 | one outer pass extends the sorted prefix by one element, permuting the array |
| HPUtils.Shuffle | Assets/_External/Extensions/HPUtils.cs:158-173 | when the byte draws are eventually accepted, the list ends a permutation of what it held |
| HPUtils.DrawIndex | Assets/_External/Extensions/HPUtils.cs:164-167 | the rejection loop stops at the first byte below the bound, and the index is below `n` |
| HPUtils.LongListNeverAccepted | Assets/_External/Extensions/HPUtils.cs:166 | with more than 255 elements left the bound is 0, so no byte is ever accepted |
| HPUtils.QuickShuffle | Assets/_External/Extensions/HPUtils.cs:174-186 | the list ends a permutation of what it held, and a list of at most one element is unchanged |
| HPUtils.CompareLayer | Assets/_External/Extensions/HPUtils.cs:220-223 | true exactly when the mask has the bit of the object's layer |
| HPUtils.CheckIfListContainFullOfPair | Assets/_External/Extensions/HPUtils.cs:260-282 | returns true exactly when every value occurs an even number of times; an index exception happens only on an odd-length list |
| HPUtils.RemovePairKeepsParity | Assets/_External/Extensions/HPUtils.cs:266-270 | removing a matched pair keeps the answer the same |
| HPUtils.UnpairedHeadNotEven | Assets/_External/Extensions/HPUtils.cs:276-279 | a head with no partner makes the answer false |
| AVExtension.RandomItem | Assets/EditorTools/PluginScripts/AV_Extension.cs:13-16 | an element of the list, or the exception exactly for an empty list |
| AVExtension.RandomListCanDuplicateItem | Assets/EditorTools/PluginScripts/AV_Extension.cs:27-32 | `amount` picks (none for a non-positive amount), each an element of the list; fails exactly when picking from an empty list |
| AVExtension.RandomListNotDuplicateItem | Assets/EditorTools/PluginScripts/AV_Extension.cs:18-26 | the same picks as `RandomListCanDuplicateItem`, with the same failure |
| AVExtension.NotDuplicateCanRepeat | Assets/EditorTools/PluginScripts/AV_Extension.cs:18-26 | the list of "not duplicate" picks can repeat an element |
| AVExtension.FindMax | Assets/EditorTools/PluginScripts/AV_Extension.cs:34-57 | none exactly for an empty list; otherwise the element at the first position holding a maximal key |
| AVExtension.FindMin | Assets/EditorTools/PluginScripts/AV_Extension.cs:58-81 | none exactly for an empty list; otherwise the element at the first position holding a minimal key |
| AVExtension.FirstMaxUnique | Assets/EditorTools/PluginScripts/AV_Extension.cs:34-57 | only one position is the first maximum, so the result is determined |
| AVExtension.FirstMinUnique | Assets/EditorTools/PluginScripts/AV_Extension.cs:58-81 | only one position is the first minimum, so the result is determined |
| Tiles.Tile.AddFood | Assets/_Project/Scripts/GamePlay/Map/Tile.cs:8-16 | the tile holds the food and is not empty, and a callback clearing this tile is appended to the food's removal event |
| Tiles.Tile.RemoveFood | Assets/_Project/Scripts/GamePlay/Map/Tile.cs:17-20 | the tile is empty |
| Tiles.Food.InvokeOnRemoved | Assets/_Project/Scripts/GamePlay/Foods/Food.cs:13 | every tile subscribed to the food is empty afterwards |
| Tiles.StaleCallbackEmptiesTile | Assets/_Project/Scripts/GamePlay/Map/Tile.cs:12-15 | when a second food is placed on a tile and the first leaves play, the tile reads empty |
| FoodSpawning.PrefabsFor | Assets/_Project/Scripts/GamePlay/Map/FoodSpawner.cs:86-105 | fruit prefabs for a fruit session, fast-food prefabs for a fast-food session, none for cake or any other value |
| FoodSpawning.GoodSpawnCount | Assets/_Project/Scripts/GamePlay/Map/FoodSpawner.cs:121-131 | the loop places foods until the count reaches its cap or the tiles run out, never more than the tiles listed |
| FoodSpawning.LeftAfter | Assets/_Project/Scripts/GamePlay/Map/FoodSpawner.cs:123-129 | each placement takes exactly one tile out of the list |
| FoodSpawning.Filled | Assets/_Project/Scripts/GamePlay/Map/FoodSpawner.cs:123-129 | the placements fill exactly one tile each |
| FoodSpawning.PlacementsPartition | Assets/_Project/Scripts/GamePlay/Map/FoodSpawner.cs:121-131 | from a list without repetitions, no tile is filled twice and no filled tile stays listed |
| FoodSpawning.CheckedEmptyTilesSpec | Assets/_Project/Scripts/GamePlay/Map/FoodSpawner.cs:147-156 | the check only appends, lists exactly the tiles already listed plus the empty tiles of the map, and adds no repetition |
| FoodSpawning.AutoSpawnOutcome | Assets/_Project/Scripts/GamePlay/Map/FoodSpawner.cs:171-194 | a good food is placed only under its cap with a free tile and prefabs, and a bad food likewise with a tile still free; an empty prefab list stops the loop |
| FoodSpawning.FoodSpawner.Place | Assets/_Project/Scripts/GamePlay/Map/FoodSpawner.cs:174-181 | a fresh food from the prefab goes on the drawn tile, the tile leaves the list, and the food is recorded |
| FoodSpawning.FoodSpawner.constructor | Assets/_Project/Scripts/GamePlay/Map/FoodSpawner.cs:9-25 | a spawner before `Start` has no session type, no prefabs, no listed tiles and nothing spawned |
| FoodSpawning.FoodSpawner.SpawnOne | Assets/_Project/Scripts/GamePlay/Map/FoodSpawner.cs:121-131 | one pass of the spawn loop adds one placement: one tile filled, one new food recorded, the count raised by one; the filled tiles so far grow by exactly the drawn tile |
| FoodSpawning.FoodSpawner.SpawnIfDue | Assets/_Project/Scripts/GamePlay/Map/FoodSpawner.cs:172-194 | a block places a food exactly when its counter is under the cap, a tile is listed and prefabs exist; it throws exactly when the prefab list is empty instead; when it places nothing, the drawn tile, the list and the spawned foods are unchanged; when it places, the drawn tile leaves the list and holds a fresh food of the drawn prefab subscribed to that tile |
| FoodSpawning.FoodSpawner.SpawnWhileDue | Assets/_Project/Scripts/GamePlay/Map/FoodSpawner.cs:121-131 | the loop places exactly `GoodSpawnCount` foods, each drawn tile holds a fresh food subscribed to that tile, every listed tile not drawn keeps what it held, and the list stays free of repetitions |
| FoodSpawning.FoodSpawner.SpawnFood | Assets/_Project/Scripts/GamePlay/Map/FoodSpawner.cs:107-134 | nothing happens without a session type or prefabs; otherwise the number of placements follows `GoodSpawnCount`, each drawn tile holds a fresh food subscribed to that tile, every listed tile not drawn keeps what it held, and the list stays free of repetitions |
| FoodSpawning.FoodSpawner.CheckEmptyTiles | Assets/_Project/Scripts/GamePlay/Map/FoodSpawner.cs:147-156 | the list becomes `CheckedEmptyTiles` of the old list and the map |
| FoodSpawning.FoodSpawner.InitializeWithFoodType | Assets/_Project/Scripts/GamePlay/Map/FoodSpawner.cs:68-84 | the session type is set, the prefabs are that type's, and foods are spawned only when the good count is 0, with `SpawnFood`'s guarantees: the drawn tiles hold the new foods and every other listed tile keeps what it held |
| FoodSpawning.FoodSpawner.AutoSpawnStep | Assets/_Project/Scripts/GamePlay/Map/FoodSpawner.cs:158-197 | nothing happens before a session type is set; then the tile check runs, and at most one good and one bad food are placed as `AutoSpawnOutcome` says, each on its drawn tile and subscribed to that tile; no other tile changes |
| FoodSpawning.FoodSpawner.SpawnGoodThenBad | Assets/_Project/Scripts/GamePlay/Map/FoodSpawner.cs:172-194 | on the rebuilt list, the good block and then the bad block place as `AutoSpawnOutcome` says, each food on its drawn tile and subscribed to it, and no other listed tile changes |
| FoodSpawning.FoodSpawner.OnRemoveFood | Assets/_Project/Scripts/GamePlay/Map/FoodSpawner.cs:221-228 | the payload leaves the spawned list only when it is a food, and the good count always drops by one |
| FoodSpawning.FoodSpawner.OnRemoveBadFood | Assets/_Project/Scripts/GamePlay/Map/FoodSpawner.cs:229-236 | the payload leaves the spawned list only when it is a food, and the bad count always drops by one |
| MainMenu.PreviousIndex | Assets/_Project/Scripts/MainMenu/UI/MainMenuUI.cs:82-86 | inside the list, one step back modulo the number of skins |
| MainMenu.NextIndex | Assets/_Project/Scripts/MainMenu/UI/MainMenuUI.cs:107-111 | inside the list, one step on modulo the number of skins |
| MainMenu.StepsUndoEachOther | Assets/_Project/Scripts/MainMenu/UI/MainMenuUI.cs:78-126 | stepping back then on, or on then back, returns to the same skin |
| MainMenu.PurchaseEffects | Assets/_Project/Scripts/MainMenu/UI/MainMenuUI.cs:232-236 | a purchase takes exactly the cost from the gold, unlocks the bought skin and makes it current, and leaves every other skin's unlock state alone |
| MainMenu.SkinKeysDiffer | Assets/_Project/Scripts/Others/GameData.cs:199-214 | distinct skin codes have distinct unlock keys |
| MainMenu.MainMenuUI.constructor | Assets/_Project/Scripts/MainMenu/UI/MainMenuUI.cs:14-21 | a new menu shows index 0 and skin `Skin0`, with no save pending |
| MainMenu.MainMenuUI.InitializeSkinSelection | Assets/_Project/Scripts/MainMenu/UI/MainMenuUI.cs:63-76 | with skins, the selection becomes the stored skin and the index its code minus one; without skins nothing changes |
| MainMenu.MainMenuUI.Selectable | Assets/_Project/Scripts/MainMenu/UI/MainMenuUI.cs:94-98 | an unlocked skin is selectable without an exception; a locked skin at an index outside the list throws |
| MainMenu.MainMenuUI.SelectPreviousSkin | Assets/_Project/Scripts/MainMenu/UI/MainMenuUI.cs:78-101 | with skins, the index steps back with wrap-around, the code follows it, the scroll is announced, and a selectable skin is scheduled as current |
| MainMenu.MainMenuUI.SelectNextSkin | Assets/_Project/Scripts/MainMenu/UI/MainMenuUI.cs:103-126 | with skins, the index steps on with wrap-around, the code follows it, the scroll is announced, and a selectable skin is scheduled as current |
| MainMenu.MainMenuUI.DeferredSaveElapsed | Assets/_Project/Scripts/MainMenu/UI/MainMenuUI.cs:131-153 | when the delay runs out, the pending skin is stored as current, and a newer request replaces an older one |
| MainMenu.MainMenuUI.BuyCurrentSkin | Assets/_Project/Scripts/MainMenu/UI/MainMenuUI.cs:217-246 | a skin is bought exactly when its index is inside the list, it is locked and not the default, and the gold covers its cost; the store then becomes `Purchase`, and otherwise nothing changes |

## Left out

- Unity lifecycle (`Awake`, `Start`, `OnDestroy`), observer subscription and unsubscription, and the `On…` progress, completion and claim events. Each record method returns whether it completed, and the manager reacts after the call.
- Singleton plumbing and the `Load*FromAssets` methods, which read Unity resources. Catalogs are constructor parameters.
- `PlayerPrefs.Save`, JSON text and `JsonUtility` formatting. Documents are stored decoded; an empty, null or malformed document is a distinct value.
- Floating point: `Progress`, `GetProgressPercentage`, `ProgressPercentage`, `GetOverallProgress`, `GetOverallDailyProgress`, `GetCompletionPercentage`, `RoundToTen`, the float overload of `ConvertToMultipleOfNumber`, and `HPUtils`' vector, distance and float helpers.
- `AV_Extension`'s `DistanceX` and `DistanceY` and the array overload of `RandomItem` (the same as the list overload).
- Display and logging: `GetItemName`, `GetTimeRemainingText`, `GetDetailedProgressText`, `ToString`, the `Debug.Log` texts, `UpdateSkinDisplay`, and the menu buttons.
- `DebugGenerateRandomItems` and `ValidateQuest`, which are editor buttons that only log.
- `GoodFood` sound and particles, and the pool's `Despawn`. Pooled foods are fresh objects; pool reuse is not modelled.
- `FoodSpawner.SpawnBadFood` and `FoodSpawner.SpawnFood(EFoodType)`, which no code calls.
- The coroutine waits of `IECheckSpawnFood` and `SetCurrentSkinAfterDelay`. The loop is modelled one pass at a time, and the delay as a separate step.
- `HPUtils.Swap` for `List<T>` (the same as the array overload) and the `GetLength`, position and spawn helpers.
- Dates.ParseDate: `DateTime.TryParse` is modelled for the "yyyy-MM-dd" form only, the form the code writes. Other texts it accepts, such as "2026/10/15", "2026-1-5" or a date with a time, fail here.
- Dates.FormatParseDate: holds of the model's parser, which reads only "yyyy-MM-dd". `DateTime.TryParse` also reads other texts, so of the source it holds only for texts in that form.
- DailyQuestSave.GetAssignedDate: a saved date in another form that `DateTime.TryParse` reads gives `now` here, because `Dates.ParseDate` reads only "yyyy-MM-dd".
- Text.ParseLong: culture-specific sign symbols, and the trailing NUL characters that `long.TryParse` also skips, are not modelled. White space is the ASCII space, tab, line feed, vertical tab, form feed and carriage return.
- AchievementSave.GetUnlockedDate: falls back to `MinValue` on the texts `Text.ParseLong` leaves out (culture-specific signs, trailing NUL characters).
- GameData.AddNormalQuestCompleted: the `OnQuestCompleted` notification it raises between its two writes (`GameData.cs:69`) is left to the caller. A subscribed achievement manager raises the lifetime quest total once more itself (`Achievement_Manager.cs:196`), so with that subscription one call raises it by two. `AddNormalQuestCompletedCounts` states the `+1` of the store writes alone.
- QuestManagement.QuestManager.CompleteQuest: the direct call to `DailyQuest_Manager.NotifyNormalQuestCompleted` (`Quest_Manager.cs:211-215`) and the `OnQuestCompleted` event are left to the caller. The daily and achievement managers model their reactions as their own `NotifyNormalQuestCompleted` and `OnQuestCompleted`.
- HPUtils.Swap: the index exception for a position outside the array is a precondition rather than an error result.
- HPUtils.Shuffle: the uniformity of the rejection sampling is not stated, only that the result is a permutation. The proof needs every draw to be eventually accepted, which `LongListNeverAccepted` shows fails beyond 255 elements.
- HPUtils.QuickSort: elements are unbounded integers, and the recursion's stack depth is not modelled.
- HPUtils.QuickSort: bounds with `low < high` that fall outside the array, where C# throws `IndexOutOfRangeException` (`HPUtils.cs:80`, `HPUtils.cs:84`), are excluded by a precondition rather than modelled as an error.
- AVExtension.FindMax: `CompareTo` is modelled as comparing integer keys given by a key function.
- AVExtension.FindMin: `CompareTo` is modelled as comparing integer keys, as for `FindMax`.
- DailyQuestManagement.DailyQuestManager.LoadActiveDailyQuests: like the code, it does not check capacity or repeated definitions, so the manager's one-record-per-definition invariant is not claimed after a load.
- Integer width. C# `int` arithmetic on counters, scores and gold is unbounded here, and no 32-bit wrap-around is modelled. The one overflow the code can reach, `int.MinValue / -1` in `HPUtils.ConvertToMultipleOfNumber`, throws in C# and is modelled as that exception (`None`).
- `DateTime` ticks. The unlock date is kept as its 64-bit `ToBinary` value, and `FromBinary`'s range exception for out-of-range values is not modelled.
- `EPlayerType`'s bots are `Edward` and `Bruce`. `GameData_Manager` names them `Bot1` and `Bot2`, which the enum does not declare; they are read as `Edward` and `Bruce`.
- A skin list that is null in the menu is modelled as an empty list.

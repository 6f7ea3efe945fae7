/**
 * `Achievement_Manager`: one record per achievement definition, advanced by
 * the player's food collections (from the lifetime ledger) and by completed
 * quests (from the quest total), and saved and restored by achievement id.
 */
module AchievementManagement {
  import opened Wrappers
  import opened Seqs
  import opened Mathf
  import opened Enums
  import opened Prefs
  import GameData
  import opened Foods
  import opened AchievementSave
  import opened AchievementDef
  import opened AchievementProgressRecord

  /**
   * The specific type the manager boxes for a collected food: the subclass's
   * item, boxed as its category's enum, when the runtime class is the one of
   * the food's category; null otherwise. Unlike `GetSpecificFoodType`, a
   * fruit gets its own item here.
   */
  function AchievementSpecificType(food: GoodFood): (b: Boxed)
    ensures ClassMatchesCategory(food) ==> b == Box(food.foodType, ItemCode(food.kind).value)
    ensures !ClassMatchesCategory(food) ==> b == Null
  {
    match food.foodType
    case Fruit => (match food.kind case FruitFood(c) => BoxedFruit(c) case _ => Null)
    case FastFood => (match food.kind case FastFoodFood(c) => BoxedFastFood(c) case _ => Null)
    case Cake => (match food.kind case CakeFood(c) => BoxedCake(c) case _ => Null)
  }

  /**
   * `CheckSpecificFoodMatch`: the boxed specific type has the enum type of
   * the required category and equals the required item of that category.
   */
  function CheckSpecificFoodMatch(a: AchievementSO, specific: Boxed): (r: bool)
    reads a
    ensures r <==> specific == Box(a.requiredFoodType, a.RequiredSpecificCode())
  {
    match a.requiredFoodType
    case Fruit => specific.BoxedFruit? && a.requiredFruitType == specific.fruit
    case FastFood => specific.BoxedFastFood? && a.requiredFastFoodType == specific.fastFood
    case Cake => specific.BoxedCake? && a.requiredCakeType == specific.cake
  }

  /** The records `UpdateFoodAchievements` sets: locked, collect-specific-food, of the food's category and item. */
  predicate FoodTargets(st: AchState, a: AchievementSO, cat: FoodType, specific: Boxed)
    reads a
  {
    !st.isUnlocked && a.achievementType == CollectSpecificFood && a.requiredFoodType == cat
    && CheckSpecificFoodMatch(a, specific)
  }

  /** A record's state after `UpdateFoodAchievements`, where `count` is the ledger's lifetime count of the food. */
  function FoodStep(st: AchState, a: AchievementSO, cat: FoodType, specific: Boxed, count: int, now: BinaryDate): AchState
    reads a
  {
    if FoodTargets(st, a, cat, specific) then SetProgressSpec(st, Some(a.targetValue), count, now) else st
  }

  /** A record's state after `OnQuestCompleted`, where `total` is the new quest total. */
  function QuestStep(st: AchState, a: AchievementSO, total: int, now: BinaryDate): AchState
    reads a
  {
    if !st.isUnlocked && a.achievementType == CompleteQuests then SetProgressSpec(st, Some(a.targetValue), total, now) else st
  }

  /** The ids of the records, position by position. */
  function Ids(rs: seq<AchievementProgress>): (ids: seq<string>)
    ensures |ids| == |rs| && forall k :: 0 <= k < |rs| ==> ids[k] == rs[k].achievementId
  {
    seq(|rs|, k requires 0 <= k < |rs| => rs[k].achievementId)
  }

  /** The states of the records, position by position. */
  function States(rs: seq<AchievementProgress>): (sts: seq<AchState>)
    reads set r | r in rs
    ensures |sts| == |rs| && forall k :: 0 <= k < |rs| ==> sts[k] == rs[k].State()
  {
    seq(|rs|, k requires 0 <= k < |rs| reads rs => rs[k].State())
  }

  /** `FirstOrDefault(a => a.AchievementId == id)`, as a position. */
  function FirstWithId(ids: seq<string>, id: string): (r: Option<nat>)
    ensures r.Some? <==> id in ids
    ensures r.Some? ==> r.value < |ids| && ids[r.value] == id && id !in ids[..r.value]
  {
    if |ids| == 0 then None
    else if ids[0] == id then Some(0)
    else
      match FirstWithId(ids[1..], id)
      case None => None
      case Some(i) =>
        assert ids[..i + 1] == [ids[0]] + ids[1..][..i];
        Some(i + 1)
  }

  /** The entries `SaveAchievementProgress` writes for records with ids `ids` in states `sts`. */
  function EntriesOf(ids: seq<string>, sts: seq<AchState>): (es: seq<AchievementSaveEntry>)
    requires |ids| == |sts|
    ensures |es| == |ids| && forall k :: 0 <= k < |ids| ==> es[k] == EntryOf(ids[k], sts[k])
  {
    seq(|ids|, k requires 0 <= k < |ids| => EntryOf(ids[k], sts[k]))
  }

  /**
   * The states after `LoadAchievementProgress` reads the entries `es`: each
   * entry whose id some record has replaces the first such record's state by
   * the saved one; entries with unknown ids change nothing.
   */
  function ApplyEntries(ids: seq<string>, sts: seq<AchState>, es: seq<AchievementSaveEntry>): (r: seq<AchState>)
    requires |ids| == |sts|
    ensures |r| == |sts|
  {
    if |es| == 0 then sts
    else
      var before := ApplyEntries(ids, sts, es[..|es| - 1]);
      match FirstWithId(ids, es[|es| - 1].achievementId)
      case None => before
      case Some(i) => before[i := StateOf(es[|es| - 1])]
  }

  /** The number of unlocked states. */
  function CountUnlocked(sts: seq<AchState>): (n: nat)
    ensures n <= |sts|
  {
    if |sts| == 0 then 0 else CountUnlocked(sts[..|sts| - 1]) + (if sts[|sts| - 1].isUnlocked then 1 else 0)
  }

  class AchievementManager {
    var availableAchievements: seq<AchievementSO>
    var allAchievements: seq<AchievementProgress>

    /** Every record is its own object and has its definition attached; initialisation and loading keep this. */
    ghost predicate Valid()
      reads this, allAchievements
    {
      Distinct(allAchievements) && forall k :: 0 <= k < |allAchievements| ==> allAchievements[k].achievement != null
    }

    /** The definitions of the records, position by position. */
    function Defs(): (ds: seq<AchievementSO?>)
      reads this, allAchievements
      ensures |ds| == |allAchievements| && forall k :: 0 <= k < |ds| ==> ds[k] == allAchievements[k].achievement
    {
      seq(|allAchievements|, k requires 0 <= k < |allAchievements| reads this, allAchievements => allAchievements[k].achievement)
    }

    /** A manager over the catalog `catalog`, with no records yet. */
    constructor(catalog: seq<AchievementSO>)
      ensures availableAchievements == catalog && allAchievements == []
      ensures Valid()
    {
      availableAchievements := catalog;
      allAchievements := [];
    }

    /** One new record per catalog definition, in catalog order, each with its definition attached. */
    method InitializeAchievements()
      modifies this
      ensures |allAchievements| == |availableAchievements|
      ensures forall k :: 0 <= k < |allAchievements| ==>
        fresh(allAchievements[k]) && allAchievements[k].achievementId == availableAchievements[k].achievementId
        && allAchievements[k].achievement == availableAchievements[k] && allAchievements[k].State() == Fresh
      ensures Valid()
      ensures availableAchievements == old(availableAchievements)
    {
      allAchievements := [];
      for i := 0 to |availableAchievements|
        invariant availableAchievements == old(availableAchievements)
        invariant |allAchievements| == i
        invariant forall k :: 0 <= k < i ==>
          fresh(allAchievements[k]) && allAchievements[k].achievementId == availableAchievements[k].achievementId
          && allAchievements[k].achievement == availableAchievements[k] && allAchievements[k].State() == Fresh
        invariant Valid()
      {
        var so := availableAchievements[i];
        var progress := new AchievementProgress(so.achievementId);
        progress.SetAchievementSO(so);
        allAchievements := allAchievements + [progress];
      }
    }

    /** A good-food event: the player's collection or a bare food is processed; a bot's, or any other payload, is ignored. */
    method OnFoodCollected(payload: EventPayload, prefs: PlayerPrefs, now: BinaryDate)
      requires Valid()
      modifies prefs, set r | r in allAchievements
      ensures Valid() && Defs() == old(Defs())
      ensures ProcessedFood(payload).None? ==>
        prefs.Contents() == old(prefs.Contents()) && forall r :: r in allAchievements ==> r.State() == old(r.State())
      ensures ProcessedFood(payload).Some? ==> var food := ProcessedFood(payload).value;
        var specific := AchievementSpecificType(food);
        prefs.Contents() == GameData.AddFoodCollectedSpec(old(prefs.Contents()), food.foodType, specific)
        && forall k :: 0 <= k < |allAchievements| ==>
          allAchievements[k].State() == FoodStep(old(allAchievements[k].State()), allAchievements[k].achievement, food.foodType, specific,
            GameData.GetFoodCollected(prefs.Contents(), food.foodType, specific), now)
    {
      match ProcessedFood(payload)
      case None =>
      case Some(food) =>
        ProcessFoodCollection(food, prefs, now);
    }

    /**
     * Records the collection in the ledger under the manager's own specific
     * type, then sets every matching locked collect achievement to the
     * lifetime count the ledger now holds.
     */
    method ProcessFoodCollection(food: GoodFood, prefs: PlayerPrefs, now: BinaryDate)
      requires Valid()
      modifies prefs, set r | r in allAchievements
      ensures Valid() && Defs() == old(Defs())
      ensures prefs.Contents() == GameData.AddFoodCollectedSpec(old(prefs.Contents()), food.foodType, AchievementSpecificType(food))
      ensures forall k :: 0 <= k < |allAchievements| ==>
        allAchievements[k].State() == FoodStep(old(allAchievements[k].State()), allAchievements[k].achievement, food.foodType, AchievementSpecificType(food),
          GameData.GetFoodCollected(prefs.Contents(), food.foodType, AchievementSpecificType(food)), now)
    {
      var specificType := AchievementSpecificType(food);
      GameData.AddFoodCollected(prefs, food.foodType, specificType);
      UpdateFoodAchievements(food, specificType, prefs, now);
    }

    /** Sets each locked collect achievement of the food's category and item to the food's lifetime count. */
    method UpdateFoodAchievements(food: GoodFood, specificType: Boxed, prefs: PlayerPrefs, now: BinaryDate)
      requires Valid()
      modifies set r | r in allAchievements
      ensures Valid() && Defs() == old(Defs())
      ensures forall k :: 0 <= k < |allAchievements| ==>
        allAchievements[k].State() == FoodStep(old(allAchievements[k].State()), allAchievements[k].achievement, food.foodType, specificType,
          GameData.GetFoodCollected(prefs.Contents(), food.foodType, specificType), now)
      ensures old(GetUnlockedCount()) <= GetUnlockedCount()
    {
      var collected := GameData.GetFoodCollected(prefs.Contents(), food.foodType, specificType);
      ghost var olds := States(allAchievements);
      for i := 0 to |allAchievements|
        invariant Valid() && Defs() == old(Defs())
        invariant forall k :: 0 <= k < i ==>
          allAchievements[k].State() == FoodStep(olds[k], allAchievements[k].achievement, food.foodType, specificType, collected, now)
        invariant forall k :: i <= k < |allAchievements| ==> allAchievements[k].State() == olds[k]
      {
        UpdateFoodRecord(i, food.foodType, specificType, collected, now, olds);
      }
      CountUnlockedMonotone(olds, States(allAchievements));
    }

    /** The loop body of `UpdateFoodAchievements` for the `i`-th record. */
    method UpdateFoodRecord(i: nat, cat: FoodType, specificType: Boxed, collected: int, now: BinaryDate, ghost olds: seq<AchState>)
      requires Valid() && i < |allAchievements| && |olds| == |allAchievements|
      requires forall k :: 0 <= k < i ==>
        allAchievements[k].State() == FoodStep(olds[k], allAchievements[k].achievement, cat, specificType, collected, now)
      requires forall k :: i <= k < |allAchievements| ==> allAchievements[k].State() == olds[k]
      modifies allAchievements[i]
      ensures Valid() && Defs() == old(Defs())
      ensures forall k :: 0 <= k < i + 1 ==>
        allAchievements[k].State() == FoodStep(olds[k], allAchievements[k].achievement, cat, specificType, collected, now)
      ensures forall k :: i + 1 <= k < |allAchievements| ==> allAchievements[k].State() == olds[k]
    {
      var achievement := allAchievements[i];
      if achievement.isUnlocked {
        return;
      }
      var so := achievement.achievement;
      if so.achievementType == CollectSpecificFood && so.requiredFoodType == cat && CheckSpecificFoodMatch(so, specificType) {
        var unlockedNow := achievement.SetProgress(collected, now);
      }
      forall k | 0 <= k < |allAchievements| && k != i
        ensures allAchievements[k].State() == old(allAchievements[k].State())
      {
        assert allAchievements[k] != achievement;
      }
    }

    /**
     * A quest was completed: the quest total rises by one, and every locked
     * complete-quests achievement is set to the new total.
     */
    method OnQuestCompleted(prefs: PlayerPrefs, now: BinaryDate)
      requires Valid()
      modifies prefs, set r | r in allAchievements
      ensures Valid() && Defs() == old(Defs())
      ensures prefs.Contents() == old(prefs.Contents()).SetInt(GameData.TotalQuestsKey, GameData.TotalQuestsCompleted(old(prefs.Contents())) + 1)
      ensures forall k :: 0 <= k < |allAchievements| ==>
        allAchievements[k].State() == QuestStep(old(allAchievements[k].State()), allAchievements[k].achievement, GameData.TotalQuestsCompleted(prefs.Contents()), now)
      ensures old(GetUnlockedCount()) <= GetUnlockedCount()
    {
      prefs.SetInt(GameData.TotalQuestsKey, GameData.TotalQuestsCompleted(prefs.Contents()) + 1);
      var total := GameData.TotalQuestsCompleted(prefs.Contents());
      ghost var counted := prefs.Contents();
      ghost var olds := States(allAchievements);
      for i := 0 to |allAchievements|
        invariant Valid() && Defs() == old(Defs())
        invariant prefs.Contents() == counted
        invariant forall k :: 0 <= k < i ==>
          allAchievements[k].State() == QuestStep(olds[k], allAchievements[k].achievement, total, now)
        invariant forall k :: i <= k < |allAchievements| ==> allAchievements[k].State() == olds[k]
      {
        UpdateQuestRecord(i, total, now, olds);
      }
      CountUnlockedMonotone(olds, States(allAchievements));
    }

    /** The loop body of `OnQuestCompleted` for the `i`-th record. */
    method UpdateQuestRecord(i: nat, total: int, now: BinaryDate, ghost olds: seq<AchState>)
      requires Valid() && i < |allAchievements| && |olds| == |allAchievements|
      requires forall k :: 0 <= k < i ==>
        allAchievements[k].State() == QuestStep(olds[k], allAchievements[k].achievement, total, now)
      requires forall k :: i <= k < |allAchievements| ==> allAchievements[k].State() == olds[k]
      modifies allAchievements[i]
      ensures Valid() && Defs() == old(Defs())
      ensures forall k :: 0 <= k < i + 1 ==>
        allAchievements[k].State() == QuestStep(olds[k], allAchievements[k].achievement, total, now)
      ensures forall k :: i + 1 <= k < |allAchievements| ==> allAchievements[k].State() == olds[k]
    {
      var achievement := allAchievements[i];
      if achievement.isUnlocked {
        return;
      }
      if achievement.achievement.achievementType == CompleteQuests {
        var unlockedNow := achievement.SetProgress(total, now);
      }
      forall k | 0 <= k < |allAchievements| && k != i
        ensures allAchievements[k].State() == old(allAchievements[k].State())
      {
        assert allAchievements[k] != achievement;
      }
    }

    /** Writes one entry per record, in list order, as the achievement document. */
    method SaveAchievementProgress(prefs: PlayerPrefs)
      modifies prefs
      ensures prefs.Contents() == old(prefs.Contents()).SetDocument(GameData.AchievementDataKey,
        AchievementJson(AchievementSaveData(EntriesOf(Ids(allAchievements), States(allAchievements)))))
    {
      var saveList := BuildSaveList();
      GameData.SetAchievementData(prefs, AchievementJson(AchievementSaveData(saveList)));
    }

    /** The entries `SaveAchievementProgress` writes: one per record, in list order, with its id and state. */
    method BuildSaveList() returns (saveList: seq<AchievementSaveEntry>)
      ensures saveList == EntriesOf(Ids(allAchievements), States(allAchievements))
    {
      saveList := [];
      for i := 0 to |allAchievements|
        invariant |saveList| == i
        invariant forall k :: 0 <= k < i ==> saveList[k] == EntryOf(allAchievements[k].achievementId, allAchievements[k].State())
      {
        var achievement := allAchievements[i];
        saveList := saveList + [EntryOf(achievement.achievementId, achievement.State())];
      }
    }

    /**
     * Restores saved records by id: nothing happens for an empty document, or
     * one that decodes to null or fails to decode; otherwise each entry whose
     * id a record has replaces the first such record with a new one in the
     * saved state and with the same definition.
     */
    method LoadAchievementProgress(prefs: PlayerPrefs)
      requires Valid()
      modifies this
      ensures Valid()
      ensures Ids(allAchievements) == old(Ids(allAchievements)) && Defs() == old(Defs())
      ensures GameData.AchievementData(prefs.Contents()).AchievementJson? ==>
        States(allAchievements) == old(ApplyEntries(Ids(allAchievements), States(allAchievements),
                                                    GameData.AchievementData(prefs.Contents()).saved.achievements))
      ensures !GameData.AchievementData(prefs.Contents()).AchievementJson? ==> allAchievements == old(allAchievements)
      ensures forall r :: r in allAchievements ==> r in old(allAchievements) || fresh(r)
      ensures availableAchievements == old(availableAchievements)
    {
      var jsonData := GameData.AchievementData(prefs.Contents());
      if jsonData == EmptyText {
        return;
      }
      match jsonData
      case AchievementJson(saveData) =>
        LoadEntries(saveData.achievements);
      case _ =>
    }

    /** The loop of `LoadAchievementProgress` over the decoded entries. */
    method LoadEntries(entries: seq<AchievementSaveEntry>)
      requires Valid()
      modifies this
      ensures Valid()
      ensures Ids(allAchievements) == old(Ids(allAchievements)) && Defs() == old(Defs())
      ensures States(allAchievements) == old(ApplyEntries(Ids(allAchievements), States(allAchievements), entries))
      ensures forall r :: r in allAchievements ==> r in old(allAchievements) || fresh(r)
      ensures availableAchievements == old(availableAchievements)
    {
      ghost var ids := Ids(allAchievements);
      ghost var sts := States(allAchievements);
      for j := 0 to |entries|
        invariant Valid()
        invariant Ids(allAchievements) == ids && Defs() == old(Defs())
        invariant States(allAchievements) == ApplyEntries(ids, sts, entries[..j])
        invariant forall r :: r in allAchievements ==> r in old(allAchievements) || fresh(r)
        invariant availableAchievements == old(availableAchievements)
      {
        assert entries[..j + 1][..j] == entries[..j];
        LoadEntry(entries[j], ids, ApplyEntries(ids, sts, entries[..j]));
      }
      assert entries[..|entries|] == entries;
    }

    /** One pass of the load loop: the entry replaces the first record with its id, if any. */
    method LoadEntry(entry: AchievementSaveEntry, ghost ids: seq<string>, ghost sts: seq<AchState>)
      requires Valid() && Ids(allAchievements) == ids && States(allAchievements) == sts
      modifies this
      ensures Valid()
      ensures Ids(allAchievements) == ids && Defs() == old(Defs())
      ensures States(allAchievements) == match FirstWithId(ids, entry.achievementId)
        case None => sts
        case Some(i) => sts[i := StateOf(entry)]
      ensures forall r :: r in allAchievements ==> r in old(allAchievements) || fresh(r)
      ensures availableAchievements == old(availableAchievements)
    {
      match FirstWithId(Ids(allAchievements), entry.achievementId)
      case None =>
      case Some(index) =>
        var achievement := allAchievements[index];
        var newProgress := LoadedRecord(entry, achievement.achievement);
        allAchievements := allAchievements[index := newProgress];
        assert States(allAchievements) == sts[index := StateOf(entry)];
    }

    /** The first record with id `id`, or null. */
    method GetAchievement(id: string) returns (r: AchievementProgress?)
      ensures r == null <==> id !in Ids(allAchievements)
      ensures r != null ==> r == allAchievements[FirstWithId(Ids(allAchievements), id).value]
    {
      match FirstWithId(Ids(allAchievements), id)
      case None => r := null;
      case Some(i) => r := allAchievements[i];
    }

    /** Claims the reward of the first record with id `id`; an unknown id changes nothing. */
    method ClaimAchievementReward(id: string, prefs: PlayerPrefs)
      requires Valid()
      modifies prefs, set r | r in allAchievements
      ensures Valid() && Defs() == old(Defs())
      ensures id !in Ids(allAchievements) ==>
        prefs.Contents() == old(prefs.Contents()) && States(allAchievements) == old(States(allAchievements))
      ensures id in Ids(allAchievements) ==> var i := FirstWithId(Ids(allAchievements), id).value;
        States(allAchievements) == old(States(allAchievements))[i := ClaimSpec(old(allAchievements[i].State()), true)]
        && (old(allAchievements[i].isUnlocked && !allAchievements[i].isRewardClaimed) ==>
              prefs.Contents() == GameData.PayGold(old(prefs.Contents()), allAchievements[i].achievement.goldReward))
        && (!old(allAchievements[i].isUnlocked && !allAchievements[i].isRewardClaimed) ==>
              prefs.Contents() == old(prefs.Contents()))
    {
      var achievement := GetAchievement(id);
      if achievement != null {
        ghost var i := FirstWithId(Ids(allAchievements), id).value;
        achievement.ClaimReward(prefs);
        forall k | 0 <= k < |allAchievements| && k != i
          ensures allAchievements[k].State() == old(allAchievements[k].State())
        {
          assert allAchievements[k] != achievement;
        }
      }
    }

    /** The number of unlocked records. */
    function GetUnlockedCount(): (n: int)
      reads this, allAchievements
      ensures n == CountUnlocked(States(allAchievements))
      ensures 0 <= n <= |allAchievements|
    {
      CountUnlocked(States(allAchievements))
    }

    /** The number of records, which bounds the unlocked count. */
    function GetTotalCount(): (n: int)
      reads this, allAchievements
      ensures n == |allAchievements| && GetUnlockedCount() <= n
    {
      |allAchievements|
    }

    /** `ClearAchievementData`: the stored document becomes the empty text; the records stay as they are. */
    method ClearAchievementData(prefs: PlayerPrefs)
      modifies prefs
      ensures prefs.Contents() == old(prefs.Contents()).SetDocument(GameData.AchievementDataKey, EmptyText)
      ensures GameData.AchievementData(prefs.Contents()) == EmptyText
    {
      GameData.SetAchievementData(prefs, EmptyText);
    }
  }

  /** The record the load builds from `entry`: a new one in the saved state, given the definition `so`. */
  method LoadedRecord(entry: AchievementSaveEntry, so: AchievementSO?) returns (r: AchievementProgress)
    ensures fresh(r) && r.achievementId == entry.achievementId && r.achievement == so && r.State() == StateOf(entry)
  {
    r := new AchievementProgress.Load(entry.achievementId, entry.currentProgress,
      entry.isUnlocked, entry.isRewardClaimed, GetUnlockedDate(entry));
    r.SetAchievementSO(so);
  }

  /** With ids free of repetitions, the first position holding the id of position `k` is `k`. */
  lemma FirstWithIdDistinct(ids: seq<string>, k: nat)
    requires Distinct(ids) && k < |ids|
    ensures FirstWithId(ids, ids[k]) == Some(k)
  {
  }

  /** Loading entries saved for the first `|es|` records restores those and leaves the rest as they were. */
  lemma {:induction false} LoadSavedPrefix(ids: seq<string>, base: seq<AchState>, sts: seq<AchState>, es: seq<AchievementSaveEntry>)
    requires Distinct(ids) && |base| == |ids| && |sts| == |ids| && |es| <= |ids|
    requires forall j :: 0 <= j < |es| ==> es[j] == EntryOf(ids[j], sts[j])
    ensures ApplyEntries(ids, base, es) == sts[..|es|] + base[|es|..]
  {
    if |es| > 0 {
      var n := |es|;
      LoadSavedPrefix(ids, base, sts, es[..n - 1]);
      EntryRoundTrip(ids[n - 1], sts[n - 1]);
      FirstWithIdDistinct(ids, n - 1);
      ReplaceNext(sts, base, n - 1);
    }
  }

  /** Replacing position `i` of `a[..i] + b[i..]` by `a[i]` extends the prefix from `a` by one. */
  lemma ReplaceNext<T>(a: seq<T>, b: seq<T>, i: nat)
    requires i < |a| == |b|
    ensures (a[..i] + b[i..])[i := a[i]] == a[..i + 1] + b[i + 1..]
  {
  }

  /**
   * Save then load: when no two records share an id, loading the entries
   * saved for states `sts` restores exactly `sts`, whatever the records held
   * before.
   */
  lemma SaveLoadRoundTrip(ids: seq<string>, base: seq<AchState>, sts: seq<AchState>)
    requires Distinct(ids) && |base| == |ids| && |sts| == |ids|
    ensures ApplyEntries(ids, base, EntriesOf(ids, sts)) == sts
  {
    LoadSavedPrefix(ids, base, sts, EntriesOf(ids, sts));
  }

  /** Two records sharing an id: both saved entries land on the first record, the second keeps its state, and the last entry wins. */
  lemma SharedIdLoadsIntoFirst(id: string, base0: AchState, base1: AchState, st0: AchState, st1: AchState)
    ensures ApplyEntries([id, id], [base0, base1], EntriesOf([id, id], [st0, st1])) == [st1, base1]
  {
    var ids := [id, id];
    var es := EntriesOf(ids, [st0, st1]);
    EntryRoundTrip(id, st0);
    EntryRoundTrip(id, st1);
    assert FirstWithId(ids, id) == Some(0);
    assert es[..1][..0] == [];
    assert ApplyEntries(ids, [base0, base1], es[..1]) == [st0, base1];
    assert es[..|es| - 1] == es[..1];
  }

  /** Entries whose ids no record has change nothing. */
  lemma {:induction false} UnknownIdsIgnored(ids: seq<string>, sts: seq<AchState>, es: seq<AchievementSaveEntry>)
    requires |ids| == |sts|
    requires forall j :: 0 <= j < |es| ==> es[j].achievementId !in ids
    ensures ApplyEntries(ids, sts, es) == sts
  {
    if |es| > 0 {
      UnknownIdsIgnored(ids, sts, es[..|es| - 1]);
    }
  }

  /** A record no entry names keeps its state. */
  lemma {:induction false} UnnamedRecordKept(ids: seq<string>, sts: seq<AchState>, es: seq<AchievementSaveEntry>, k: nat)
    requires |ids| == |sts| && k < |ids|
    requires forall j :: 0 <= j < |es| ==> es[j].achievementId != ids[k]
    ensures ApplyEntries(ids, sts, es)[k] == sts[k]
  {
    if |es| > 0 {
      UnnamedRecordKept(ids, sts, es[..|es| - 1], k);
    }
  }

  /**
   * The first record with an id ends up in the state of the last entry with
   * that id, taken verbatim; earlier entries for it are overwritten.
   */
  lemma {:induction false} LastEntryWins(ids: seq<string>, sts: seq<AchState>, es: seq<AchievementSaveEntry>, j: nat, k: nat)
    requires |ids| == |sts| && k < |ids| && FirstWithId(ids, ids[k]) == Some(k)
    requires j < |es| && es[j].achievementId == ids[k]
    requires forall j' :: j < j' < |es| ==> es[j'].achievementId != ids[k]
    ensures ApplyEntries(ids, sts, es)[k] == StateOf(es[j])
  {
    var init := es[..|es| - 1];
    if j < |es| - 1 {
      LastEntryWins(ids, sts, init, j, k);
      var i := FirstWithId(ids, es[|es| - 1].achievementId);
      assert i.Some? ==> i.value != k;
    }
  }

  /** A record unlocked before a food or quest update is left exactly as it was. */
  lemma UnlockedRecordsUntouched(st: AchState, a: AchievementSO, cat: FoodType, specific: Boxed, n: int, now: BinaryDate)
    requires st.isUnlocked
    ensures FoodStep(st, a, cat, specific, n, now) == st
    ensures QuestStep(st, a, n, now) == st
  {
  }

  /**
   * A targeted locked collect achievement takes the clamped lifetime count as
   * its progress, and unlocks exactly when the count reaches its target.
   */
  lemma FoodStepTracksLedger(st: AchState, a: AchievementSO, cat: FoodType, specific: Boxed, count: int, now: BinaryDate)
    requires FoodTargets(st, a, cat, specific) && a.targetValue >= 1
    ensures FoodStep(st, a, cat, specific, count, now).currentProgress == Clamp(count, 0, a.targetValue)
    ensures FoodStep(st, a, cat, specific, count, now).isUnlocked <==> count >= a.targetValue
  {
  }

  /** A locked complete-quests achievement unlocks exactly when the quest total reaches its target. */
  lemma QuestStepTracksTotal(st: AchState, a: AchievementSO, total: int, now: BinaryDate)
    requires !st.isUnlocked && a.achievementType == CompleteQuests && a.targetValue >= 1
    ensures QuestStep(st, a, total, now).currentProgress == Clamp(total, 0, a.targetValue)
    ensures QuestStep(st, a, total, now).isUnlocked <==> total >= a.targetValue
  {
  }

  /** The unlocked count does not fall when no state loses its unlocked flag. */
  lemma {:induction false} CountUnlockedMonotone(a: seq<AchState>, b: seq<AchState>)
    requires |a| == |b|
    requires forall k :: 0 <= k < |a| && a[k].isUnlocked ==> b[k].isUnlocked
    ensures CountUnlocked(a) <= CountUnlocked(b)
  {
    if |a| > 0 {
      CountUnlockedMonotone(a[..|a| - 1], b[..|b| - 1]);
    }
  }

  /**
   * A player's collection is counted twice in the lifetime ledger: once by
   * the food on contact, once more by the manager. Fast food and cake land
   * twice under the same item key; a fruit lands once under the category key
   * and once under its item key, since only the manager boxes fruit items.
   */
  lemma PlayerCollectionCountedTwice(s: Store, food: GoodFood)
    requires ClassMatchesCategory(food)
    ensures var t := GameData.AddFoodCollectedSpec(
              GameData.AddFoodCollectedSpec(s, food.foodType, GetSpecificFoodType(food)),
              food.foodType, AchievementSpecificType(food));
      && GameData.TotalFoodCollected(t) == GameData.TotalFoodCollected(s) + 2
      && (food.foodType != Fruit ==>
            GameData.GetFoodCollected(t, food.foodType, AchievementSpecificType(food))
            == GameData.GetFoodCollected(s, food.foodType, AchievementSpecificType(food)) + 2)
      && (food.foodType == Fruit ==>
            GameData.GetFoodCollected(t, Fruit, Null) == GameData.GetFoodCollected(s, Fruit, Null) + 1
            && GameData.GetFoodCollected(t, Fruit, AchievementSpecificType(food))
               == GameData.GetFoodCollected(s, Fruit, AchievementSpecificType(food)) + 1)
  {
    var first := GetSpecificFoodType(food);
    var second := AchievementSpecificType(food);
    var s1 := GameData.AddFoodCollectedSpec(s, food.foodType, first);
    if food.foodType == Fruit {
      var category := GameData.FoodKey(Fruit, Null);
      var item := GameData.FoodKey(Fruit, second);
      assert |category| < |item|;
      GameData.KeyShapes(Fruit, Null);
      GameData.KeyShapes(Fruit, second);
      GameData.FirstChar(category);
      GameData.FirstChar(GameData.DailyFoodKey(Fruit, second));
      GameData.FirstChar(item);
      GameData.FirstChar(GameData.DailyFoodKey(Fruit, Null));
      assert GameData.TotalFoodKey[0] == 'T';
      GameData.AddFoodCollectedCounts(s, Fruit, Null, item);
      GameData.AddFoodCollectedCounts(s1, Fruit, second, category);
    } else {
      assert first == second;
      GameData.AddFoodCollectedCounts(s, food.foodType, first, "");
      GameData.AddFoodCollectedCounts(s1, food.foodType, second, "");
    }
  }
}

/**
 * `DailyQuest_Manager`: the player's daily quests. Each day the active list
 * is replaced by two generated quests, one "complete normal quests" and one
 * "collect a specific food"; collection and quest-completed events advance
 * the matching records; a completed record moves to the completed list; the
 * lists are saved by quest name and restored against the catalog.
 */
module DailyQuestManagement {
  import opened Wrappers
  import opened Text
  import opened Dates
  import opened Seqs
  import opened Enums
  import opened Foods
  import Prefs
  import opened DailyQuestSave
  import DailyQuestSaveSystem
  import opened DailyQuestDef
  import opened DailyQuestProgressRecord
  import opened DailyQuestLists

  /**
   * Whether `food` is the specific food `quest` asks for: the categories are
   * equal, the food's runtime class is that category's subclass, and its item
   * is the required item of that category.
   */
  function DoesMatchRequiredFood(quest: DailyQuestSO, food: GoodFood): (r: bool)
    reads quest
    ensures r <==> quest.requiredFoodType == food.foodType && ClassMatchesCategory(food)
                   && ItemCode(food.kind) == Some(quest.RequiredSpecificCode())
  {
    if quest.requiredFoodType != food.foodType then false
    else
      match quest.requiredFoodType
      case Fruit => (match food.kind case FruitFood(c) => quest.requiredFruitType == c case _ => false)
      case FastFood => (match food.kind case FastFoodFood(c) => quest.requiredFastFoodType == c case _ => false)
      case Cake => (match food.kind case CakeFood(c) => quest.requiredCakeType == c case _ => false)
  }

  /** The two events that advance daily quests. */
  datatype QuestEvent = FoodCollected(food: GoodFood) | NormalQuestDone

  /**
   * Whether `ev` advances a record of `quest`: a collection advances a
   * CollectSpecificFood quest whose food it matches, a completed normal
   * quest advances a CompleteNormalQuests quest.
   */
  predicate Advances(quest: DailyQuestSO, ev: QuestEvent)
    reads quest
  {
    match ev
    case FoodCollected(food) => quest.questType == CollectSpecificFood && DoesMatchRequiredFood(quest, food)
    case NormalQuestDone => quest.questType == CompleteNormalQuests
  }

  /** A record's state after `ev`: one unit more when the event advances its quest. */
  function EventStep(quest: DailyQuestSO, ev: QuestEvent, st: DailyState, now: Instant): DailyState
    reads quest
  {
    if Advances(quest, ev) then AddProgressSpec(st, quest.targetValue, 1, now) else st
  }

  /** The states of the records, in order. */
  function StatesOf(rs: seq<DailyQuestProgress>): (sts: seq<DailyState>)
    reads rs
    ensures |sts| == |rs| && forall k :: 0 <= k < |rs| ==> sts[k] == rs[k].State()
  {
    if |rs| == 0 then [] else StatesOf(rs[..|rs| - 1]) + [rs[|rs| - 1].State()]
  }

  /** The state of a record created at `now`. */
  function NewDailyState(now: Instant): DailyState {
    DailyState(0, false, false, now, MinValue)
  }

  /** The definition `CreateCompleteQuestsDaily` builds: complete 2 normal quests for 100 gold. */
  ghost predicate IsCompletionistQuest(q: DailyQuestSO)
    reads q
  {
    q.questName == "Quest Completionist"
    && q.questDescription == "Complete 2" + NormalQuestsPhrase
    && q.questType == CompleteNormalQuests && q.targetValue == 2 && q.goldReward == 100
    && q.requiredFoodType == Fruit && q.requiredFruitType == 1 && q.requiredFastFoodType == 1 && q.requiredCakeType == 1
  }

  /** `Random.Range(0, 3)` over `Enum.GetValues(typeof(EFoodType))`, with the draw `roll`. */
  function DrawnCategory(roll: nat): FoodType {
    FoodTypes[roll % |FoodTypes|]
  }

  /** `Random.Range(0, 9)` over the category's item enum, with the draw `roll`. */
  function DrawnItem(cat: FoodType, roll: nat): int {
    ItemCodes(cat)[roll % |ItemCodes(cat)|]
  }

  /**
   * The definition `CreateCollectSpecificFoodDaily` builds from the category
   * draw `catRoll` and the item draw `itemRoll`: collect 10 of that item for
   * 50 gold; the item fields of the other categories keep their defaults.
   */
  ghost predicate IsCollectorQuest(q: DailyQuestSO, catRoll: nat, itemRoll: nat)
    reads q
  {
    var cat := DrawnCategory(catRoll);
    var code := DrawnItem(cat, itemRoll);
    var foodName := ItemName(cat, code);
    q.questType == CollectSpecificFood && q.targetValue == 10 && q.goldReward == 50 && q.requiredFoodType == cat
    && q.requiredFruitType == (if cat == Fruit then code else 1)
    && q.requiredFastFoodType == (if cat == FastFood then code else 1)
    && q.requiredCakeType == (if cat == Cake then code else 1)
    && q.questName == foodName + " Collector" && q.questDescription == "Collect 10 " + foodName + " items"
  }

  /** The active records of type `t`, in list order. */
  function RecordsOfType(rs: seq<DailyQuestProgress>, t: DailyQuestType): seq<DailyQuestProgress>
    reads set r | r in rs :: r.quest
  {
    if |rs| == 0 then []
    else RecordsOfType(rs[..|rs| - 1], t) + (if rs[|rs| - 1].quest.questType == t then [rs[|rs| - 1]] else [])
  }

  /** The save entry of a record of the quest named `name` in state `st`. */
  function EntryFor(name: string, st: DailyState): DailyQuestSaveEntry {
    NewEntry(name, st.currentProgress, st.isCompleted, st.isRewardClaimed, st.assignedDate)
  }

  /** One save entry per record, in order. */
  function EntriesOf(rs: seq<DailyQuestProgress>): (es: seq<DailyQuestSaveEntry>)
    reads rs, set r | r in rs :: r.quest
    ensures |es| == |rs|
  {
    if |rs| == 0 then []
    else EntriesOf(rs[..|rs| - 1]) + [EntryFor(rs[|rs| - 1].quest.questName, rs[|rs| - 1].State())]
  }

  /** The names of the catalog's definitions, in order. */
  function Names(qs: seq<DailyQuestSO>): (ns: seq<string>)
    reads qs
    ensures |ns| == |qs| && forall k :: 0 <= k < |qs| ==> ns[k] == qs[k].questName
  {
    if |qs| == 0 then [] else Names(qs[..|qs| - 1]) + [qs[|qs| - 1].questName]
  }

  /** `FirstOrDefault(q => q.QuestName == name)` over the catalog's names: the position of the first one equal to `name`. */
  function FindByName(names: seq<string>, name: string): (r: Option<nat>)
    ensures r.None? ==> forall k :: 0 <= k < |names| ==> names[k] != name
    ensures r.Some? ==> (r.value < |names| && names[r.value] == name
                         && forall k :: 0 <= k < r.value ==> names[k] != name)
  {
    if |names| == 0 then None
    else if names[0] == name then Some(0)
    else
      match FindByName(names[1..], name)
      case None =>
        assert forall k :: 1 <= k < |names| ==> names[k] == names[1..][k - 1];
        None
      case Some(i) =>
        assert names[1..][i] == names[i + 1];
        Some(i + 1)
  }

  /** The state of the record the load constructor builds from an entry at `now`. */
  function LoadedState(e: DailyQuestSaveEntry, now: Instant): DailyState {
    DailyState(e.currentProgress, e.isCompleted, e.isRewardClaimed, GetAssignedDate(e, now), MinValue)
  }

  /** Where a loaded entry ends up. */
  datatype Destination = ToActive | ToCompleted | Dropped

  /**
   * An entry with no catalog definition of its name is dropped; otherwise a
   * completed entry goes to the completed list, an open one of a day that
   * still lasts to the active list, and an open expired one is dropped.
   */
  function DestinationOf(names: seq<string>, e: DailyQuestSaveEntry, now: Instant): Destination
  {
    match FindByName(names, e.questName)
    case None => Dropped
    case Some(_) =>
      if e.isCompleted then ToCompleted
      else if Expired(LoadedState(e, now), now) then Dropped
      else ToActive
  }

  /** The entries bound for `d`, in order. */
  function EntriesTo(names: seq<string>, es: seq<DailyQuestSaveEntry>, now: Instant, d: Destination): (r: seq<DailyQuestSaveEntry>)
    ensures |r| <= |es|
  {
    if |es| == 0 then []
    else EntriesTo(names, es[..|es| - 1], now, d) + (if DestinationOf(names, es[|es| - 1], now) == d then [es[|es| - 1]] else [])
  }

  /** The destination of each entry. */
  function Destinations(names: seq<string>, es: seq<DailyQuestSaveEntry>, now: Instant): (ds: seq<Destination>)
    ensures |ds| == |es| && forall k :: 0 <= k < |es| ==> ds[k] == DestinationOf(names, es[k], now)
  {
    seq(|es|, k requires 0 <= k < |es| => DestinationOf(names, es[k], now))
  }

  /** The entries whose destination in `ds` is `d`, in order. */
  function Routed(es: seq<DailyQuestSaveEntry>, ds: seq<Destination>, d: Destination): seq<DailyQuestSaveEntry>
    requires |ds| == |es|
  {
    if |es| == 0 then [] else Routed(es[..|es| - 1], ds[..|es| - 1], d) + (if ds[|es| - 1] == d then [es[|es| - 1]] else [])
  }

  /** Taking one more entry and its destination adds the entry to its own destination only. */
  lemma RoutedStep(es: seq<DailyQuestSaveEntry>, ds: seq<Destination>, i: nat, d: Destination)
    requires |ds| == |es| && i < |es|
    ensures Routed(es[..i + 1], ds[..i + 1], d) == Routed(es[..i], ds[..i], d) + (if ds[i] == d then [es[i]] else [])
  {
    assert es[..i + 1][..i] == es[..i];
    assert ds[..i + 1][..i] == ds[..i];
  }

  /** Routing by the precomputed destinations selects exactly the entries bound for `d`. */
  lemma {:induction false} RoutedIsEntriesTo(names: seq<string>, es: seq<DailyQuestSaveEntry>, now: Instant, d: Destination)
    ensures Routed(es, Destinations(names, es, now), d) == EntriesTo(names, es, now, d)
  {
    if |es| > 0 {
      var init := es[..|es| - 1];
      RoutedIsEntriesTo(names, init, now, d);
      assert Destinations(names, es, now)[..|es| - 1] == Destinations(names, init, now);
    }
  }

  /** `r` is the record the load builds from `e`: the catalog's first definition of the entry's name, in the entry's state. */
  ghost predicate LoadedAs(catalog: seq<DailyQuestSO>, names: seq<string>, r: DailyQuestProgress, e: DailyQuestSaveEntry, now: Instant)
    reads r
  {
    var f := FindByName(names, e.questName);
    f.Some? && f.value < |catalog| && r.quest == catalog[f.value] && r.State() == LoadedState(e, now)
  }

  /** The records `rs` are, position by position, the ones loaded from the entries `es`. */
  ghost predicate LoadedFrom(catalog: seq<DailyQuestSO>, rs: seq<DailyQuestProgress>, es: seq<DailyQuestSaveEntry>, now: Instant)
    reads catalog, rs
  {
    |rs| == |es| && forall k :: 0 <= k < |rs| ==> LoadedAs(catalog, Names(catalog), rs[k], es[k], now)
  }

  /**
   * The record the load builds for `entry` and where it goes: none, and
   * dropped, without a catalog definition of its name; otherwise one for the
   * first such definition in the entry's state, completed to the completed
   * list, open and unexpired to the active list, open and expired nowhere.
   */
  method LoadRecord(catalog: seq<DailyQuestSO>, entry: DailyQuestSaveEntry, now: Instant) returns (r: DailyQuestProgress?, d: Destination)
    ensures r == null <==> FindByName(Names(catalog), entry.questName).None?
    ensures r != null ==> fresh(r) && LoadedAs(catalog, Names(catalog), r, entry, now)
    ensures d == DestinationOf(Names(catalog), entry, now)
  {
    var found := FindByName(Names(catalog), entry.questName);
    if found.None? {
      return null, Dropped;
    }
    var quest := catalog[found.value];
    r := new DailyQuestProgress.Load(quest, entry.currentProgress,
      entry.isCompleted, entry.isRewardClaimed, GetAssignedDate(entry, now));
    if r.isCompleted {
      d := ToCompleted;
    } else if !r.IsExpired(now) {
      d := ToActive;
    } else {
      d := Dropped;
    }
  }

  /**
   * One pass of the loop of `LoadActiveDailyQuests`: loads entry `i` and
   * appends its record to the list its destination names.
   */
  method LoadStep(catalog: seq<DailyQuestSO>, entries: seq<DailyQuestSaveEntry>, i: nat, now: Instant,
                  ghost names: seq<string>, ghost dests: seq<Destination>, ghost prior: seq<DailyQuestProgress>,
                  loadedActive: seq<DailyQuestProgress>, loadedCompleted: seq<DailyQuestProgress>,
                  ghost toActive: seq<DailyQuestSaveEntry>, ghost toCompleted: seq<DailyQuestSaveEntry>)
    returns (loadedActive': seq<DailyQuestProgress>, loadedCompleted': seq<DailyQuestProgress>,
             ghost toActive': seq<DailyQuestSaveEntry>, ghost toCompleted': seq<DailyQuestSaveEntry>)
    requires i < |entries| && Names(catalog) == names && dests == Destinations(names, entries, now)
    requires toActive == Routed(entries[..i], dests[..i], ToActive)
    requires toCompleted == Routed(entries[..i], dests[..i], ToCompleted)
    requires |loadedActive| == |toActive| && forall k :: 0 <= k < |loadedActive| ==> LoadedAs(catalog, names, loadedActive[k], toActive[k], now)
    requires |loadedCompleted| == |toCompleted| && forall k :: 0 <= k < |loadedCompleted| ==> LoadedAs(catalog, names, loadedCompleted[k], toCompleted[k], now)
    requires Distinct(prior) ==> Distinct(prior + loadedActive)
    ensures Names(catalog) == names
    ensures toActive' == Routed(entries[..i + 1], dests[..i + 1], ToActive)
    ensures toCompleted' == Routed(entries[..i + 1], dests[..i + 1], ToCompleted)
    ensures |loadedActive'| == |toActive'| && forall k :: 0 <= k < |loadedActive'| ==> LoadedAs(catalog, names, loadedActive'[k], toActive'[k], now)
    ensures |loadedCompleted'| == |toCompleted'| && forall k :: 0 <= k < |loadedCompleted'| ==> LoadedAs(catalog, names, loadedCompleted'[k], toCompleted'[k], now)
    ensures Distinct(prior) ==> Distinct(prior + loadedActive')
  {
    RoutedStep(entries, dests, i, ToActive);
    RoutedStep(entries, dests, i, ToCompleted);
    loadedActive', loadedCompleted', toActive', toCompleted' := loadedActive, loadedCompleted, toActive, toCompleted;
    var questProgress, d := LoadRecord(catalog, entries[i], now);
    if d == ToCompleted {
      loadedCompleted', toCompleted' := loadedCompleted + [questProgress], toCompleted + [entries[i]];
    } else if d == ToActive {
      if Distinct(prior) {
        DistinctConcat(prior + loadedActive, [questProgress]);
        assert prior + loadedActive + [questProgress] == prior + (loadedActive + [questProgress]);
      }
      loadedActive', toActive' := loadedActive + [questProgress], toActive + [entries[i]];
    }
  }

  /**
   * The loop of `LoadActiveDailyQuests`: a record for every entry with a
   * catalog definition, collected for the list its destination names. The
   * active records are new objects, so they repeat none of `prior`.
   */
  method LoadEntries(catalog: seq<DailyQuestSO>, entries: seq<DailyQuestSaveEntry>, now: Instant, ghost prior: seq<DailyQuestProgress>)
    returns (loadedActive: seq<DailyQuestProgress>, loadedCompleted: seq<DailyQuestProgress>)
    ensures LoadedFrom(catalog, loadedActive, EntriesTo(Names(catalog), entries, now, ToActive), now)
    ensures LoadedFrom(catalog, loadedCompleted, EntriesTo(Names(catalog), entries, now, ToCompleted), now)
    ensures Distinct(prior) ==> Distinct(prior + loadedActive)
  {
    ghost var names := Names(catalog);
    ghost var dests := Destinations(names, entries, now);
    ghost var toActive: seq<DailyQuestSaveEntry>, toCompleted: seq<DailyQuestSaveEntry> := [], [];
    loadedActive, loadedCompleted := [], [];
    assert prior + [] == prior;
    for i := 0 to |entries|
      invariant Names(catalog) == names
      invariant toActive == Routed(entries[..i], dests[..i], ToActive)
      invariant toCompleted == Routed(entries[..i], dests[..i], ToCompleted)
      invariant |loadedActive| == |toActive| && forall k :: 0 <= k < |loadedActive| ==> LoadedAs(catalog, names, loadedActive[k], toActive[k], now)
      invariant |loadedCompleted| == |toCompleted| && forall k :: 0 <= k < |loadedCompleted| ==> LoadedAs(catalog, names, loadedCompleted[k], toCompleted[k], now)
      invariant Distinct(prior) ==> Distinct(prior + loadedActive)
    {
      loadedActive, loadedCompleted, toActive, toCompleted :=
        LoadStep(catalog, entries, i, now, names, dests, prior, loadedActive, loadedCompleted, toActive, toCompleted);
    }
    assert entries[..|entries|] == entries && dests[..|entries|] == dests;
    RoutedIsEntriesTo(names, entries, now, ToActive);
    RoutedIsEntriesTo(names, entries, now, ToCompleted);
  }

  /** The records `rs` are those of a fresh assignment at `now` with the two draws, for the capacity `maxDaily`. */
  ghost predicate FreshAssignment(rs: seq<DailyQuestProgress>, maxDaily: int, now: Instant, catRoll: nat, itemRoll: nat)
    reads set r | r in rs, set r | r in rs :: r.quest
  {
    |rs| == (if maxDaily >= 2 then 2 else if maxDaily == 1 then 1 else 0)
    && (|rs| >= 1 ==> IsCompletionistQuest(rs[0].quest) && rs[0].State() == NewDailyState(now))
    && (|rs| >= 2 ==> IsCollectorQuest(rs[1].quest, catRoll, itemRoll) && rs[1].State() == NewDailyState(now))
  }

  /** A fresh assignment stays one while none of its records and definitions changes. */
  twostate lemma FreshAssignmentKept(rs: seq<DailyQuestProgress>, new maxDaily: int, new now: Instant, new catRoll: nat, new itemRoll: nat)
    requires old(FreshAssignment(rs, maxDaily, now, catRoll, itemRoll))
    requires forall k :: 0 <= k < |rs| ==> unchanged(rs[k]) && unchanged(rs[k].quest)
    ensures FreshAssignment(rs, maxDaily, now, catRoll, itemRoll)
  {
  }

  /** The login date taken from a save: its stored date at midnight, or today's when the text is not a date. */
  function LoginDateOf(data: DailyQuestSaveData, now: Instant): Instant {
    match ParseDate(data.lastLoginDate)
    case Some(d) => DateTime(d, 0)
    case None => now.Midnight()
  }

  class DailyQuestManager {
    /** The catalog of daily quest definitions entries are restored against. */
    const availableDailyQuests: seq<DailyQuestSO>
    const maxDailyQuests: int
    const autoAssignDailyQuests: bool
    var activeDailyQuests: seq<DailyQuestProgress>
    var completedDailyQuests: seq<DailyQuestProgress>
    var lastLoginDate: Instant
    var saveData: Option<DailyQuestSaveData>

    /** No record is listed twice as active. Every operation keeps this. */
    ghost predicate Valid()
      reads this
    {
      Distinct(activeDailyQuests)
    }

    /** The active list respects the capacity and holds at most one record per definition. Every operation except loading keeps this. */
    ghost predicate WithinLimits()
      reads this
    {
      (|activeDailyQuests| == 0 || |activeDailyQuests| <= maxDailyQuests) && DistinctDefs(activeDailyQuests)
    }

    /** A manager over the catalog `catalog`, with empty lists and the default login date. */
    constructor(catalog: seq<DailyQuestSO>, maxDaily: int, autoAssign: bool)
      ensures availableDailyQuests == catalog && maxDailyQuests == maxDaily && autoAssignDailyQuests == autoAssign
      ensures activeDailyQuests == [] && completedDailyQuests == [] && lastLoginDate == MinValue && saveData == None
      ensures Valid() && WithinLimits()
    {
      availableDailyQuests := catalog;
      maxDailyQuests := maxDaily;
      autoAssignDailyQuests := autoAssign;
      activeDailyQuests := [];
      completedDailyQuests := [];
      lastLoginDate := MinValue;
      saveData := None;
    }

    /**
     * The day check at start-up: on a new day the login date becomes today,
     * expired completed records are dropped and, when enabled, the quests are
     * reassigned; on the same day they are assigned only when none is active.
     * Expired active records are removed last. The first assignment uses the
     * draws `draws(0)`, `draws(1)`, a second one `draws(2)`, `draws(3)`.
     */
    method CheckAndAssignDailyQuests(now: Instant, draws: nat -> nat)
      modifies this
      ensures lastLoginDate.date == now.date && saveData == old(saveData)
      ensures old(lastLoginDate.date) != now.date ==>
        (lastLoginDate == now.Midnight() && completedDailyQuests == old(UnexpiredOf(completedDailyQuests, now)))
      ensures old(lastLoginDate.date) == now.date ==>
        (lastLoginDate == old(lastLoginDate) && completedDailyQuests == old(completedDailyQuests))
      ensures autoAssignDailyQuests && old(lastLoginDate.date) != now.date ==>
        (FreshAssignment(activeDailyQuests, maxDailyQuests, now, draws(0), draws(1)) && Valid() && WithinLimits())
      ensures autoAssignDailyQuests && old(lastLoginDate.date) == now.date && |old(activeDailyQuests)| == 0 ==>
        (FreshAssignment(activeDailyQuests, maxDailyQuests, now, draws(2), draws(3)) && Valid() && WithinLimits())
      ensures !autoAssignDailyQuests || (old(lastLoginDate.date) == now.date && |old(activeDailyQuests)| != 0) ==>
        activeDailyQuests == RemoveDefs(old(activeDailyQuests), Quests(old(ExpiredOf(activeDailyQuests, now))))
      ensures (!autoAssignDailyQuests || (old(lastLoginDate.date) == now.date && |old(activeDailyQuests)| != 0)) && old(WithinLimits()) ==>
        activeDailyQuests == old(UnexpiredOf(activeDailyQuests, now))
      ensures old(Valid()) ==> Valid()
      ensures old(WithinLimits()) ==> WithinLimits()
    {
      if WithinLimits() {
        RemovingExpiredKeepsUnexpired(activeDailyQuests, now);
      }
      var newDay, reassigned := StartDay(now, draws);
      if reassigned {
        RemoveExpiredAfterAssignment(now, if newDay then draws(0) else draws(2), if newDay then draws(1) else draws(3));
      } else {
        RemoveExpiredQuests(now);
      }
    }

    /**
     * The part of `CheckAndAssignDailyQuests` before expired quests are
     * removed: the new-day handling, then the assignment when none is active.
     * `reassigned` tells whether the active list is now a fresh assignment.
     */
    method StartDay(now: Instant, draws: nat -> nat) returns (newDay: bool, reassigned: bool)
      modifies this
      ensures newDay <==> old(lastLoginDate.date) != now.date
      ensures reassigned <==> autoAssignDailyQuests && (newDay || |old(activeDailyQuests)| == 0)
      ensures lastLoginDate.date == now.date && saveData == old(saveData)
      ensures newDay ==> lastLoginDate == now.Midnight() && completedDailyQuests == old(UnexpiredOf(completedDailyQuests, now))
      ensures !newDay ==> lastLoginDate == old(lastLoginDate) && completedDailyQuests == old(completedDailyQuests)
      ensures reassigned ==> FreshAssignment(activeDailyQuests, maxDailyQuests, now,
        if newDay then draws(0) else draws(2), if newDay then draws(1) else draws(3)) && Valid() && WithinLimits()
      ensures !reassigned ==> activeDailyQuests == old(activeDailyQuests)
      ensures old(Valid()) ==> Valid()
      ensures old(WithinLimits()) ==> WithinLimits()
    {
      var today := now.Midnight();
      newDay := lastLoginDate.date != today.date;
      if newDay {
        HandleNewDay(now, draws(0), draws(1));
      }
      reassigned := autoAssignDailyQuests && (newDay || |activeDailyQuests| == 0);
      if autoAssignDailyQuests && |activeDailyQuests| == 0 {
        AssignRandomDailyQuests(now, draws(2), draws(3));
        if newDay {
          assert FreshAssignment(activeDailyQuests, maxDailyQuests, now, draws(0), draws(1));
        }
      }
    }

    /** `RemoveExpiredQuests` right after a fresh assignment removes nothing. */
    method RemoveExpiredAfterAssignment(now: Instant, ghost catRoll: nat, ghost itemRoll: nat)
      requires FreshAssignment(activeDailyQuests, maxDailyQuests, now, catRoll, itemRoll) && Valid() && WithinLimits()
      modifies this
      ensures activeDailyQuests == old(activeDailyQuests)
      ensures FreshAssignment(activeDailyQuests, maxDailyQuests, now, catRoll, itemRoll) && Valid() && WithinLimits()
      ensures completedDailyQuests == old(completedDailyQuests)
      ensures lastLoginDate == old(lastLoginDate) && saveData == old(saveData)
    {
      FreshAssignmentUnexpired(now, catRoll, itemRoll);
      NoneExpired(activeDailyQuests, now);
      ghost var before := activeDailyQuests;
      assert ExpiredOf(before, now) == [];
      label BeforeRemoval:
      RemoveExpiredQuests(now);
      assert old@BeforeRemoval(ExpiredOf(before, now)) == [];
      FreshAssignmentKept@BeforeRemoval(before, maxDailyQuests, now, catRoll, itemRoll);
    }

    /** A fresh assignment has no record whose day is over. */
    lemma FreshAssignmentUnexpired(now: Instant, catRoll: nat, itemRoll: nat)
      requires FreshAssignment(activeDailyQuests, maxDailyQuests, now, catRoll, itemRoll)
      ensures forall k :: 0 <= k < |activeDailyQuests| ==> !activeDailyQuests[k].IsExpired(now)
    {
    }

    /** A new day: the login date becomes today's midnight, expired completed records go and, when enabled, the quests are reassigned. */
    method HandleNewDay(now: Instant, catRoll: nat, itemRoll: nat)
      modifies this
      ensures lastLoginDate == now.Midnight()
      ensures completedDailyQuests == old(UnexpiredOf(completedDailyQuests, now))
      ensures !autoAssignDailyQuests ==> activeDailyQuests == old(activeDailyQuests)
      ensures autoAssignDailyQuests ==> FreshAssignment(activeDailyQuests, maxDailyQuests, now, catRoll, itemRoll) && Valid() && WithinLimits()
      ensures autoAssignDailyQuests ==> forall k :: 0 <= k < |activeDailyQuests| ==> fresh(activeDailyQuests[k])
      ensures old(Valid()) ==> Valid()
      ensures old(WithinLimits()) ==> WithinLimits()
      ensures saveData == old(saveData)
    {
      lastLoginDate := now.Midnight();
      ClearExpiredCompletedQuests(now);
      if autoAssignDailyQuests {
        AssignRandomDailyQuests(now, catRoll, itemRoll);
      }
    }

    /**
     * Removes every active record, one definition at a time, then creates and
     * offers the "complete normal quests" definition and the "collect a
     * specific food" definition drawn with `catRoll` and `itemRoll`.
     */
    method AssignRandomDailyQuests(now: Instant, catRoll: nat, itemRoll: nat)
      modifies this
      ensures FreshAssignment(activeDailyQuests, maxDailyQuests, now, catRoll, itemRoll)
      ensures forall k :: 0 <= k < |activeDailyQuests| ==> fresh(activeDailyQuests[k]) && fresh(activeDailyQuests[k].quest)
      ensures Valid() && WithinLimits()
      ensures completedDailyQuests == old(completedDailyQuests)
      ensures lastLoginDate == old(lastLoginDate) && saveData == old(saveData)
    {
      RemoveAllActive();
      var first, firstAdded := CreateCompleteQuestsDaily(now);
      var second, secondAdded := CreateCollectSpecificFoodDaily(now, catRoll, itemRoll);
    }

    /** The first loop of `AssignRandomDailyQuests`: `RemoveDailyQuest` for each active record's definition, which empties the list. */
    method RemoveAllActive()
      modifies this
      ensures activeDailyQuests == []
      ensures completedDailyQuests == old(completedDailyQuests)
      ensures lastLoginDate == old(lastLoginDate) && saveData == old(saveData)
    {
      var snapshot := activeDailyQuests;
      ghost var qs := Quests(snapshot);
      for i := 0 to |snapshot|
        invariant activeDailyQuests == RemoveDefs(snapshot, qs[..i])
        invariant completedDailyQuests == old(completedDailyQuests)
        invariant lastLoginDate == old(lastLoginDate) && saveData == old(saveData)
      {
        assert qs[..i + 1][..i] == qs[..i];
        var removed := RemoveDailyQuest(snapshot[i].quest);
      }
      assert qs[..|snapshot|] == qs;
      RemoveAllDefs(snapshot);
    }

    /** Creates the "Quest Completionist" definition (complete 2 normal quests, 100 gold) and offers it to `AddDailyQuest`. */
    method CreateCompleteQuestsDaily(now: Instant) returns (quest: DailyQuestSO, added: bool)
      modifies this
      ensures fresh(quest) && IsCompletionistQuest(quest)
      ensures added <==> |old(activeDailyQuests)| < maxDailyQuests
      ensures !added ==> activeDailyQuests == old(activeDailyQuests)
      ensures added ==> (|activeDailyQuests| == |old(activeDailyQuests)| + 1
                         && activeDailyQuests[..|old(activeDailyQuests)|] == old(activeDailyQuests)
                         && fresh(activeDailyQuests[|old(activeDailyQuests)|])
                         && activeDailyQuests[|old(activeDailyQuests)|].quest == quest
                         && activeDailyQuests[|old(activeDailyQuests)|].State() == NewDailyState(now))
      ensures completedDailyQuests == old(completedDailyQuests)
      ensures lastLoginDate == old(lastLoginDate) && saveData == old(saveData)
      ensures old(Valid()) ==> Valid()
      ensures old(WithinLimits()) ==> WithinLimits()
    {
      quest := new DailyQuestSO(CompleteNormalQuests, 2, Fruit, 100);
      quest.questName := "Quest Completionist";
      quest.questDescription := "Complete 2" + NormalQuestsPhrase;
      added := AddDailyQuest(quest, now);
    }

    /**
     * Creates a "collect 10 of one item" definition (50 gold) whose category
     * is the draw `catRoll` and whose item is the draw `itemRoll`, and offers
     * it to `AddDailyQuest`.
     */
    method CreateCollectSpecificFoodDaily(now: Instant, catRoll: nat, itemRoll: nat) returns (quest: DailyQuestSO, added: bool)
      modifies this
      ensures fresh(quest) && IsCollectorQuest(quest, catRoll, itemRoll)
      ensures added <==> |old(activeDailyQuests)| < maxDailyQuests
      ensures !added ==> activeDailyQuests == old(activeDailyQuests)
      ensures added ==> (|activeDailyQuests| == |old(activeDailyQuests)| + 1
                         && activeDailyQuests[..|old(activeDailyQuests)|] == old(activeDailyQuests)
                         && fresh(activeDailyQuests[|old(activeDailyQuests)|])
                         && activeDailyQuests[|old(activeDailyQuests)|].quest == quest
                         && activeDailyQuests[|old(activeDailyQuests)|].State() == NewDailyState(now))
      ensures completedDailyQuests == old(completedDailyQuests)
      ensures lastLoginDate == old(lastLoginDate) && saveData == old(saveData)
      ensures old(Valid()) ==> Valid()
      ensures old(WithinLimits()) ==> WithinLimits()
    {
      var randomFoodType := DrawnCategory(catRoll);
      quest := new DailyQuestSO(CollectSpecificFood, 10, randomFoodType, 50);
      var foodName := "";
      match randomFoodType {
        case Fruit =>
          var randomFruit := DrawnItem(Fruit, itemRoll);
          quest.requiredFruitType := randomFruit;
          foodName := ItemName(Fruit, randomFruit);
        case FastFood =>
          var randomFastFood := DrawnItem(FastFood, itemRoll);
          quest.requiredFastFoodType := randomFastFood;
          foodName := ItemName(FastFood, randomFastFood);
        case Cake =>
          var randomCake := DrawnItem(Cake, itemRoll);
          quest.requiredCakeType := randomCake;
          foodName := ItemName(Cake, randomCake);
      }
      quest.questName := foodName + " Collector";
      quest.questDescription := "Collect 10 " + foodName + " items";
      added := AddDailyQuest(quest, now);
    }

    /** Adds a record for `quest` unless it is null, the active list is full, or the definition already has an active record. */
    method AddDailyQuest(quest: DailyQuestSO?, now: Instant) returns (added: bool)
      modifies this
      ensures added <==> quest != null && |old(activeDailyQuests)| < maxDailyQuests && !HasDef(old(activeDailyQuests), quest)
      ensures !added ==> activeDailyQuests == old(activeDailyQuests)
      ensures added ==> (|activeDailyQuests| == |old(activeDailyQuests)| + 1
                         && activeDailyQuests[..|old(activeDailyQuests)|] == old(activeDailyQuests)
                         && fresh(activeDailyQuests[|old(activeDailyQuests)|])
                         && activeDailyQuests[|old(activeDailyQuests)|].quest == quest
                         && activeDailyQuests[|old(activeDailyQuests)|].State() == NewDailyState(now))
      ensures completedDailyQuests == old(completedDailyQuests)
      ensures lastLoginDate == old(lastLoginDate) && saveData == old(saveData)
      ensures old(Valid()) ==> Valid()
      ensures old(WithinLimits()) ==> WithinLimits()
    {
      if quest == null {
        return false;
      }
      if |activeDailyQuests| >= maxDailyQuests {
        return false;
      }
      if IsDailyQuestActive(quest) {
        return false;
      }
      var questProgress := new DailyQuestProgress(quest, now);
      activeDailyQuests := activeDailyQuests + [questProgress];
      added := true;
    }

    /** Removes the first active record of `quest`; false when it has none. */
    method RemoveDailyQuest(quest: DailyQuestSO) returns (removed: bool)
      modifies this
      ensures removed <==> HasDef(old(activeDailyQuests), quest)
      ensures activeDailyQuests == RemoveDef(old(activeDailyQuests), quest)
      ensures completedDailyQuests == old(completedDailyQuests)
      ensures lastLoginDate == old(lastLoginDate) && saveData == old(saveData)
      ensures old(Valid()) ==> Valid()
      ensures old(WithinLimits()) ==> WithinLimits() && !HasDef(activeDailyQuests, quest)
    {
      var questProgress := GetActiveDailyQuestProgress(quest);
      if questProgress == null {
        return false;
      }
      FirstOfDefIsFirstIndex(activeDailyQuests, quest);
      RemoveDefKeeps(activeDailyQuests, quest);
      activeDailyQuests := RemoveFirst(activeDailyQuests, questProgress);
      removed := true;
    }

    /** Moves an active record to the completed list; a record that is not active is left alone. */
    method CompleteDailyQuest(questProgress: DailyQuestProgress) returns (moved: bool)
      modifies this
      ensures moved <==> questProgress in old(activeDailyQuests)
      ensures !moved ==> activeDailyQuests == old(activeDailyQuests) && completedDailyQuests == old(completedDailyQuests)
      ensures moved ==> (activeDailyQuests == RemoveFirst(old(activeDailyQuests), questProgress)
                         && completedDailyQuests == old(completedDailyQuests) + [questProgress])
      ensures moved && old(Valid()) ==> activeDailyQuests == Without(old(activeDailyQuests), [questProgress])
      ensures lastLoginDate == old(lastLoginDate) && saveData == old(saveData)
      ensures old(Valid()) ==> Valid()
      ensures old(WithinLimits()) ==> WithinLimits()
    {
      if questProgress !in activeDailyQuests {
        return false;
      }
      ghost var before := activeDailyQuests;
      ghost var i := FirstIndex(before, questProgress);
      DistinctRemove(before, i);
      if DistinctDefs(before) {
        RemoveKeepsDistinctDefs(before, i);
      }
      if Distinct(before) {
        RemoveFirstIsWithout(before, questProgress);
      }
      activeDailyQuests := RemoveFirst(activeDailyQuests, questProgress);
      completedDailyQuests := completedDailyQuests + [questProgress];
      moved := true;
    }

    /**
     * Removes, for each active record whose day is over, the first active
     * record of its definition. With one record per definition this keeps
     * exactly the records whose day lasts.
     */
    method RemoveExpiredQuests(now: Instant)
      modifies this
      ensures activeDailyQuests == RemoveDefs(old(activeDailyQuests), Quests(old(ExpiredOf(activeDailyQuests, now))))
      ensures old(ExpiredOf(activeDailyQuests, now)) == [] ==> activeDailyQuests == old(activeDailyQuests)
      ensures old(WithinLimits()) ==> WithinLimits()
      ensures old(Valid()) ==> Valid()
      ensures completedDailyQuests == old(completedDailyQuests)
      ensures lastLoginDate == old(lastLoginDate) && saveData == old(saveData)
      ensures forall k :: 0 <= k < |old(activeDailyQuests)| ==>
        unchanged(old(activeDailyQuests)[k]) && unchanged(old(activeDailyQuests)[k].quest)
    {
      var expiredQuests := ExpiredOf(activeDailyQuests, now);
      ghost var before := activeDailyQuests;
      ghost var qs := Quests(expiredQuests);
      for i := 0 to |expiredQuests|
        invariant activeDailyQuests == RemoveDefs(before, qs[..i])
        invariant old(Valid()) ==> Valid()
        invariant old(WithinLimits()) ==> WithinLimits()
        invariant completedDailyQuests == old(completedDailyQuests)
        invariant lastLoginDate == old(lastLoginDate) && saveData == old(saveData)
      {
        assert qs[..i + 1][..i] == qs[..i];
        var removed := RemoveDailyQuest(expiredQuests[i].quest);
      }
      assert qs[..|expiredQuests|] == qs;
    }

    /** `RemoveAll(q => q.IsExpired)` on the completed list. */
    method ClearExpiredCompletedQuests(now: Instant)
      modifies this
      ensures completedDailyQuests == old(UnexpiredOf(completedDailyQuests, now))
      ensures activeDailyQuests == old(activeDailyQuests)
      ensures lastLoginDate == old(lastLoginDate) && saveData == old(saveData)
    {
      completedDailyQuests := UnexpiredOf(completedDailyQuests, now);
    }

    /** A good-food event: a player's collection or a bare food advances the matching records; anything else changes nothing. */
    method OnGoodFoodCollected(payload: EventPayload, now: Instant) returns (moved: seq<DailyQuestProgress>)
      requires Valid()
      modifies this, set r | r in activeDailyQuests
      ensures Valid()
      ensures ProcessedFood(payload).None? ==>
        (moved == [] && activeDailyQuests == old(activeDailyQuests) && completedDailyQuests == old(completedDailyQuests)
         && forall r :: r in old(activeDailyQuests) ==> r.State() == old(r.State()))
      ensures ProcessedFood(payload).Some? ==>
        && (forall r :: r in old(activeDailyQuests) ==>
              r.State() == EventStep(r.quest, FoodCollected(ProcessedFood(payload).value), old(r.State()), now))
        && (forall r :: r in old(activeDailyQuests) ==> (r in moved <==> !old(r.isCompleted) && r.isCompleted))
        && (forall r :: r in moved ==> r in old(activeDailyQuests))
        && activeDailyQuests == Without(old(activeDailyQuests), moved)
        && completedDailyQuests == old(completedDailyQuests) + moved
    {
      match ProcessedFood(payload)
      case Some(food) =>
        moved := ProcessSpecificFoodCollection(food, now);
      case None =>
        moved := [];
    }

    /**
     * A player collection: every active record of a CollectSpecificFood
     * quest that `food` matches gains one unit; the records this completes
     * (returned in order) move to the completed list.
     */
    method ProcessSpecificFoodCollection(food: GoodFood, now: Instant) returns (moved: seq<DailyQuestProgress>)
      requires Valid()
      modifies this, set r | r in activeDailyQuests
      ensures Valid()
      ensures forall k :: 0 <= k < |old(activeDailyQuests)| ==>
        old(activeDailyQuests)[k].State() == EventStep(old(activeDailyQuests)[k].quest, FoodCollected(food), old(activeDailyQuests[k].State()), now)
      ensures forall k :: 0 <= k < |old(activeDailyQuests)| ==>
        (old(activeDailyQuests)[k] in moved <==> !old(activeDailyQuests[k].isCompleted) && old(activeDailyQuests)[k].isCompleted)
      ensures forall r :: r in moved ==> r in old(activeDailyQuests)
      ensures activeDailyQuests == Without(old(activeDailyQuests), moved)
      ensures completedDailyQuests == old(completedDailyQuests) + moved
      ensures old(WithinLimits()) ==> WithinLimits()
      ensures lastLoginDate == old(lastLoginDate) && saveData == old(saveData)
    {
      moved := ApplyToActive(FoodCollected(food), now);
    }

    /** A normal quest was completed: every active CompleteNormalQuests record gains one unit; the records this completes move to the completed list. */
    method NotifyNormalQuestCompleted(now: Instant) returns (moved: seq<DailyQuestProgress>)
      requires Valid()
      modifies this, set r | r in activeDailyQuests
      ensures Valid()
      ensures forall k :: 0 <= k < |old(activeDailyQuests)| ==>
        old(activeDailyQuests)[k].State() == EventStep(old(activeDailyQuests)[k].quest, NormalQuestDone, old(activeDailyQuests[k].State()), now)
      ensures forall k :: 0 <= k < |old(activeDailyQuests)| ==>
        (old(activeDailyQuests)[k] in moved <==> !old(activeDailyQuests[k].isCompleted) && old(activeDailyQuests)[k].isCompleted)
      ensures forall r :: r in moved ==> r in old(activeDailyQuests)
      ensures activeDailyQuests == Without(old(activeDailyQuests), moved)
      ensures completedDailyQuests == old(completedDailyQuests) + moved
      ensures old(WithinLimits()) ==> WithinLimits()
      ensures lastLoginDate == old(lastLoginDate) && saveData == old(saveData)
    {
      moved := ApplyToActive(NormalQuestDone, now);
    }

    /**
     * The loop both events share: over a copy of the active list, each
     * record the event advances gains one unit and, when that completes it,
     * moves to the completed list.
     */
    method ApplyToActive(ev: QuestEvent, now: Instant) returns (moved: seq<DailyQuestProgress>)
      requires Valid()
      modifies this, set r | r in activeDailyQuests
      ensures Valid()
      ensures forall k :: 0 <= k < |old(activeDailyQuests)| ==>
        old(activeDailyQuests)[k].State() == EventStep(old(activeDailyQuests)[k].quest, ev, old(activeDailyQuests[k].State()), now)
      ensures forall k :: 0 <= k < |old(activeDailyQuests)| ==>
        (old(activeDailyQuests)[k] in moved <==> !old(activeDailyQuests[k].isCompleted) && old(activeDailyQuests)[k].isCompleted)
      ensures forall r :: r in moved ==> r in old(activeDailyQuests)
      ensures activeDailyQuests == Without(old(activeDailyQuests), moved)
      ensures completedDailyQuests == old(completedDailyQuests) + moved
      ensures old(WithinLimits()) ==> WithinLimits()
      ensures lastLoginDate == old(lastLoginDate) && saveData == old(saveData)
    {
      var snapshot := activeDailyQuests;
      ghost var olds := StatesOf(snapshot);
      moved := [];
      WithoutNothing(snapshot, moved);
      for i := 0 to |snapshot|
        invariant Applied(snapshot, olds, old(completedDailyQuests), moved, i, ev, now)
        invariant old(WithinLimits()) ==> WithinLimits()
        invariant lastLoginDate == old(lastLoginDate) && saveData == old(saveData)
      {
        moved := ApplyToRecord(snapshot, olds, old(completedDailyQuests), moved, i, ev, now);
      }
      assert snapshot[..|snapshot|] == snapshot;
    }

    /**
     * How far `ApplyToActive` has got after `i` records of the copy
     * `snapshot`, whose states were `olds`: the first `i` records have taken
     * the event, the rest are untouched, and the records it completed
     * (`moved`, in order) have left the active list for the completed one.
     */
    ghost predicate Applied(snapshot: seq<DailyQuestProgress>, olds: seq<DailyState>, completed0: seq<DailyQuestProgress>,
                            moved: seq<DailyQuestProgress>, i: nat, ev: QuestEvent, now: Instant)
      reads this, snapshot, set r | r in snapshot :: r.quest
    {
      Valid() && Distinct(snapshot) && |olds| == |snapshot| && i <= |snapshot|
      && activeDailyQuests == Without(snapshot, moved)
      && completedDailyQuests == completed0 + moved
      && (forall r :: r in moved ==> r in snapshot[..i])
      && (forall k :: 0 <= k < i ==> (snapshot[k] in moved <==> !olds[k].isCompleted && snapshot[k].isCompleted))
      && (forall k :: 0 <= k < i ==> snapshot[k].State() == EventStep(snapshot[k].quest, ev, olds[k], now))
      && (forall k :: i <= k < |snapshot| ==> snapshot[k].State() == olds[k])
    }

    /**
     * The `i`-th record of the copy gains one unit and, when that completes
     * it, moves to the completed list.
     */
    method AdvanceRecord(snapshot: seq<DailyQuestProgress>, moved: seq<DailyQuestProgress>, i: nat, now: Instant)
      returns (moved': seq<DailyQuestProgress>)
      requires Valid() && Distinct(snapshot) && i < |snapshot|
      requires activeDailyQuests == Without(snapshot, moved) && snapshot[i] !in moved
      modifies this, snapshot[i]
      ensures Valid()
      ensures old(WithinLimits()) ==> WithinLimits()
      ensures snapshot[i].State() == AddProgressSpec(old(snapshot[i].State()), snapshot[i].quest.targetValue, 1, now)
      ensures moved' == moved + (if !old(snapshot[i].isCompleted) && snapshot[i].isCompleted then [snapshot[i]] else [])
      ensures activeDailyQuests == Without(snapshot, moved')
      ensures completedDailyQuests == old(completedDailyQuests) + (moved'[|moved|..])
      ensures lastLoginDate == old(lastLoginDate) && saveData == old(saveData)
    {
      var questProgress := snapshot[i];
      WithoutMembers(snapshot, moved, questProgress);
      var completedNow := questProgress.AddProgress(1, now);
      moved' := moved;
      if completedNow {
        var done := CompleteDailyQuest(questProgress);
        WithoutTwice(snapshot, moved, [questProgress]);
        moved' := moved + [questProgress];
      }
    }

    /** A record the event does not advance is passed over unchanged. */
    lemma SkipRecord(snapshot: seq<DailyQuestProgress>, olds: seq<DailyState>, completed0: seq<DailyQuestProgress>,
                     moved: seq<DailyQuestProgress>, i: nat, ev: QuestEvent, now: Instant)
      requires i < |snapshot| && Applied(snapshot, olds, completed0, moved, i, ev, now) && !Advances(snapshot[i].quest, ev)
      ensures Applied(snapshot, olds, completed0, moved, i + 1, ev, now)
    {
      assert snapshot[..i + 1] == snapshot[..i] + [snapshot[i]];
      assert snapshot[i] !in moved by {
        assert snapshot[i] !in snapshot[..i];
      }
    }

    /** The loop body of `ApplyToActive` for the `i`-th record of the copy. */
    method ApplyToRecord(snapshot: seq<DailyQuestProgress>, ghost olds: seq<DailyState>, ghost completed0: seq<DailyQuestProgress>,
                         moved: seq<DailyQuestProgress>, i: nat, ev: QuestEvent, now: Instant)
      returns (moved': seq<DailyQuestProgress>)
      requires i < |snapshot| && Applied(snapshot, olds, completed0, moved, i, ev, now)
      modifies this, snapshot[i]
      ensures Applied(snapshot, olds, completed0, moved', i + 1, ev, now)
      ensures old(WithinLimits()) ==> WithinLimits()
      ensures lastLoginDate == old(lastLoginDate) && saveData == old(saveData)
    {
      var questProgress := snapshot[i];
      moved' := moved;
      if !Advances(questProgress.quest, ev) {
        SkipRecord(snapshot, olds, completed0, moved, i, ev, now);
        return;
      }
      assert questProgress !in moved by {
        assert questProgress !in snapshot[..i];
      }
      moved' := AdvanceRecord(snapshot, moved, i, now);
      assert snapshot[..i + 1] == snapshot[..i] + [questProgress];
      forall k | 0 <= k < |snapshot| && k != i
        ensures snapshot[k].State() == old(snapshot[k].State()) && snapshot[k].isCompleted == old(snapshot[k].isCompleted)
        ensures snapshot[k] in moved' <==> snapshot[k] in moved
      {
        assert snapshot[k] != questProgress;
      }
      forall k | 0 <= k < i + 1
        ensures snapshot[k].State() == EventStep(snapshot[k].quest, ev, olds[k], now)
        ensures snapshot[k] in moved' <==> !olds[k].isCompleted && snapshot[k].isCompleted
      {
      }
    }

    /** The saved form: today's date and one entry per active record, then one per completed record whose day lasts. */
    method SaveDailyQuestData(prefs: Prefs.PlayerPrefs, now: Instant)
      modifies this, prefs
      ensures saveData == Some(DailyQuestSaveData(FormatDate(now.date),
        old(EntriesOf(activeDailyQuests) + EntriesOf(UnexpiredOf(completedDailyQuests, now)))))
      ensures prefs.Contents() == old(prefs.Contents()).SetDocument(DailyQuestSaveSystem.SaveKey, Prefs.DailyQuestJson(saveData.value))
      ensures activeDailyQuests == old(activeDailyQuests) && completedDailyQuests == old(completedDailyQuests)
      ensures lastLoginDate == old(lastLoginDate)
    {
      var data := if saveData.None? then NewSaveData(now) else saveData.value;
      var entries := SavedEntries(now);
      data := data.(lastLoginDate := FormatDate(now.date), activeQuests := entries);
      saveData := Some(data);
      DailyQuestSaveSystem.SaveDailyQuestData(prefs, data);
    }

    /** The two loops of `SaveDailyQuestData`: an entry per active record, then one per completed record whose day lasts. */
    method SavedEntries(now: Instant) returns (entries: seq<DailyQuestSaveEntry>)
      ensures entries == old(EntriesOf(activeDailyQuests) + EntriesOf(UnexpiredOf(completedDailyQuests, now)))
    {
      entries := [];
      for i := 0 to |activeDailyQuests|
        invariant entries == EntriesOf(activeDailyQuests[..i])
      {
        assert activeDailyQuests[..i + 1][..i] == activeDailyQuests[..i];
        var quest := activeDailyQuests[i];
        entries := entries + [NewEntry(quest.quest.questName, quest.currentProgress, quest.isCompleted, quest.isRewardClaimed, quest.assignedDate)];
      }
      assert activeDailyQuests[..|activeDailyQuests|] == activeDailyQuests;
      var current := UnexpiredOf(completedDailyQuests, now);
      for i := 0 to |current|
        invariant entries == EntriesOf(activeDailyQuests) + EntriesOf(current[..i])
      {
        assert current[..i + 1][..i] == current[..i];
        var quest := current[i];
        entries := entries + [NewEntry(quest.quest.questName, quest.currentProgress, quest.isCompleted, quest.isRewardClaimed, quest.assignedDate)];
      }
      assert current[..|current|] == current;
    }

    /** Reads the save (or a fresh one), takes its login date, and restores its entries. */
    method LoadDailyQuestData(prefs: Prefs.PlayerPrefs, now: Instant)
      modifies this
      ensures saveData == Some(DailyQuestSaveSystem.LoadSpec(prefs.Contents(), now))
      ensures lastLoginDate == LoginDateOf(saveData.value, now)
      ensures |old(activeDailyQuests)| <= |activeDailyQuests| && activeDailyQuests[..|old(activeDailyQuests)|] == old(activeDailyQuests)
      ensures LoadedFrom(availableDailyQuests, activeDailyQuests[|old(activeDailyQuests)|..], EntriesTo(Names(availableDailyQuests), saveData.value.activeQuests, now, ToActive), now)
      ensures |old(completedDailyQuests)| <= |completedDailyQuests| && completedDailyQuests[..|old(completedDailyQuests)|] == old(completedDailyQuests)
      ensures LoadedFrom(availableDailyQuests, completedDailyQuests[|old(completedDailyQuests)|..], EntriesTo(Names(availableDailyQuests), saveData.value.activeQuests, now, ToCompleted), now)
      ensures old(Valid()) ==> Valid()
    {
      var data := DailyQuestSaveSystem.LoadDailyQuestData(prefs, now);
      saveData := Some(data);
      match ParseDate(data.lastLoginDate) {
        case Some(d) => lastLoginDate := DateTime(d, 0);
        case None => lastLoginDate := now.Midnight();
      }
      LoadActiveDailyQuests(data.activeQuests, now);
    }

    /**
     * Restores saved entries against the catalog (nothing at all when it is
     * empty): an entry takes the first definition of its name and is
     * appended to the list its destination names; capacity and duplicates are
     * not checked.
     */
    method LoadActiveDailyQuests(entries: seq<DailyQuestSaveEntry>, now: Instant)
      modifies this
      ensures |old(activeDailyQuests)| <= |activeDailyQuests| && activeDailyQuests[..|old(activeDailyQuests)|] == old(activeDailyQuests)
      ensures LoadedFrom(availableDailyQuests, activeDailyQuests[|old(activeDailyQuests)|..], EntriesTo(Names(availableDailyQuests), entries, now, ToActive), now)
      ensures |old(completedDailyQuests)| <= |completedDailyQuests| && completedDailyQuests[..|old(completedDailyQuests)|] == old(completedDailyQuests)
      ensures LoadedFrom(availableDailyQuests, completedDailyQuests[|old(completedDailyQuests)|..], EntriesTo(Names(availableDailyQuests), entries, now, ToCompleted), now)
      ensures old(Valid()) ==> Valid()
      ensures lastLoginDate == old(lastLoginDate) && saveData == old(saveData)
    {
      if |availableDailyQuests| == 0 {
        EmptyCatalogDropsAll(Names(availableDailyQuests), entries, now);
        assert activeDailyQuests[|activeDailyQuests|..] == [] && completedDailyQuests[|completedDailyQuests|..] == [];
        return;
      }
      var loadedActive, loadedCompleted := LoadEntries(availableDailyQuests, entries, now, activeDailyQuests);
      assert (activeDailyQuests + loadedActive)[|activeDailyQuests|..] == loadedActive;
      assert (completedDailyQuests + loadedCompleted)[|completedDailyQuests|..] == loadedCompleted;
      activeDailyQuests, completedDailyQuests := activeDailyQuests + loadedActive, completedDailyQuests + loadedCompleted;
    }

    /** The first active record of `quest`, or null. */
    method GetActiveDailyQuestProgress(quest: DailyQuestSO) returns (r: DailyQuestProgress?)
      ensures r == null <==> !HasDef(activeDailyQuests, quest)
      ensures r != null ==> r == activeDailyQuests[FirstOfDef(activeDailyQuests, quest).value]
    {
      match FirstOfDef(activeDailyQuests, quest)
      case None => r := null;
      case Some(i) => r := activeDailyQuests[i];
    }

    /** The first completed record of `quest`, or null. */
    method GetCompletedDailyQuestProgress(quest: DailyQuestSO) returns (r: DailyQuestProgress?)
      ensures r == null <==> !HasDef(completedDailyQuests, quest)
      ensures r != null ==> r == completedDailyQuests[FirstOfDef(completedDailyQuests, quest).value]
    {
      match FirstOfDef(completedDailyQuests, quest)
      case None => r := null;
      case Some(i) => r := completedDailyQuests[i];
    }

    /** Whether some active record belongs to `quest`. */
    function IsDailyQuestActive(quest: DailyQuestSO): (r: bool)
      reads this
      ensures r <==> exists i :: 0 <= i < |activeDailyQuests| && activeDailyQuests[i].quest == quest
    {
      FirstOfDef(activeDailyQuests, quest).Some?
    }

    /** Whether some completed record belongs to `quest`. */
    function IsDailyQuestCompleted(quest: DailyQuestSO): (r: bool)
      reads this
      ensures r <==> exists i :: 0 <= i < |completedDailyQuests| && completedDailyQuests[i].quest == quest
    {
      FirstOfDef(completedDailyQuests, quest).Some?
    }

    /** The active records whose quest has type `t`, in list order. */
    function GetDailyQuestsByType(t: DailyQuestType): (rs: seq<DailyQuestProgress>)
      reads this, set r | r in activeDailyQuests :: r.quest
      ensures forall i :: 0 <= i < |rs| ==> rs[i] in activeDailyQuests && rs[i].quest.questType == t
      ensures forall i :: 0 <= i < |activeDailyQuests| && activeDailyQuests[i].quest.questType == t ==>
        activeDailyQuests[i] in rs
    {
      RecordsOfTypeMembers(activeDailyQuests, t);
      RecordsOfType(activeDailyQuests, t)
    }
  }

  /** The records of a type are exactly the listed records of that type. */
  lemma {:induction false} RecordsOfTypeMembers(rs: seq<DailyQuestProgress>, t: DailyQuestType)
    ensures forall i :: 0 <= i < |RecordsOfType(rs, t)| ==>
      RecordsOfType(rs, t)[i] in rs && RecordsOfType(rs, t)[i].quest.questType == t
    ensures forall i :: 0 <= i < |rs| && rs[i].quest.questType == t ==> rs[i] in RecordsOfType(rs, t)
  {
    if |rs| > 0 {
      var init := rs[..|rs| - 1];
      RecordsOfTypeMembers(init, t);
      assert forall i :: 0 <= i < |init| ==> rs[i] == init[i];
      var fi := RecordsOfType(init, t);
      var f := RecordsOfType(rs, t);
      forall i | 0 <= i < |f|
        ensures f[i] in rs && f[i].quest.questType == t
      {
        if i < |fi| {
          assert f[i] == fi[i];
        } else {
          assert f[i] == rs[|rs| - 1];
        }
      }
    }
  }

  /** With an empty catalog every entry is dropped. */
  lemma {:induction false} EmptyCatalogDropsAll(names: seq<string>, es: seq<DailyQuestSaveEntry>, now: Instant)
    requires |names| == 0
    ensures EntriesTo(names, es, now, ToActive) == [] && EntriesTo(names, es, now, ToCompleted) == []
  {
    if |es| > 0 {
      EmptyCatalogDropsAll(names, es[..|es| - 1], now);
    }
  }

  /** Every loaded entry goes to exactly one of the active list, the completed list, or nowhere. */
  lemma {:induction false} LoadPartition(names: seq<string>, es: seq<DailyQuestSaveEntry>, now: Instant)
    ensures |EntriesTo(names, es, now, ToActive)| + |EntriesTo(names, es, now, ToCompleted)|
            + |EntriesTo(names, es, now, Dropped)| == |es|
  {
    if |es| > 0 {
      LoadPartition(names, es[..|es| - 1], now);
    }
  }

  /**
   * A record saved under the name of the catalog's first definition of that
   * name loads back with the same progress and flags and its assignment day
   * at midnight: completed, it returns to the completed list; open, it
   * returns to the active list exactly when its day still lasts.
   */
  lemma SavedRecordLoadsBack(names: seq<string>, j: nat, st: DailyState, now: Instant)
    requires j < |names| && FindByName(names, names[j]) == Some(j)
    ensures LoadedState(EntryFor(names[j], st), now)
      == st.(assignedDate := st.assignedDate.Midnight(), completionTime := MinValue)
    ensures DestinationOf(names, EntryFor(names[j], st), now)
      == if st.isCompleted then ToCompleted else if Expired(st, now) then Dropped else ToActive
  {
    NewEntryAssignedDate(names[j], st.currentProgress, st.isCompleted, st.isRewardClaimed, st.assignedDate, now);
  }

  /** An entry whose name no catalog definition carries is dropped, whatever its state; this includes generated quests absent from the catalog. */
  lemma UnknownNameDropped(names: seq<string>, e: DailyQuestSaveEntry, now: Instant)
    requires forall k :: 0 <= k < |names| ==> names[k] != e.questName
    ensures DestinationOf(names, e, now) == Dropped
  {
    assert FindByName(names, e.questName).None?;
  }

  /** The saved entries of records are, position by position, the entries of their names and states. */
  lemma {:induction false} EntriesOfShape(rs: seq<DailyQuestProgress>)
    ensures forall k :: 0 <= k < |rs| ==> EntriesOf(rs)[k] == EntryFor(rs[k].quest.questName, rs[k].State())
  {
    if |rs| > 0 {
      var init := rs[..|rs| - 1];
      EntriesOfShape(init);
      assert forall k :: 0 <= k < |init| ==> rs[k] == init[k];
    }
  }

  /** A save's login date loads back as that day at midnight, and a fresh save's as today. */
  lemma LoginDateRoundTrip(d: Date, es: seq<DailyQuestSaveEntry>, now: Instant)
    requires ValidDate(d)
    ensures LoginDateOf(DailyQuestSaveData(FormatDate(d), es), now) == DateTime(d, 0)
    ensures LoginDateOf(NewSaveData(now), now) == now.Midnight()
  {
    ParseFormatDate(d);
    NewSaveDataDated(now);
  }

  /**
   * A collector quest matches exactly the foods of its drawn category whose
   * runtime class is that category's and whose item is the drawn item, and
   * its texts are the ones `GenerateQuestDescription` writes for it.
   */
  lemma CollectorQuestMatches(q: DailyQuestSO, catRoll: nat, itemRoll: nat, food: GoodFood)
    requires IsCollectorQuest(q, catRoll, itemRoll)
    ensures IsItemCode(DrawnItem(DrawnCategory(catRoll), itemRoll))
    ensures DoesMatchRequiredFood(q, food) <==>
      food.foodType == DrawnCategory(catRoll) && ClassMatchesCategory(food)
      && ItemCode(food.kind) == Some(DrawnItem(DrawnCategory(catRoll), itemRoll))
    ensures q.questName == q.GetSpecificFoodName() + " Collector"
    ensures q.questDescription == "Collect " + IntToString(q.targetValue) + " " + q.GetSpecificFoodName() + " items"
  {
    var cat := DrawnCategory(catRoll);
    var code := DrawnItem(cat, itemRoll);
    assert code in ItemCodes(cat);
    assert q.RequiredSpecificCode() == code;
    assert q.GetSpecificFoodName() == ItemName(cat, code);
    TenText();
  }

  /** The decimal text of the collector quest's target. */
  lemma TenText()
    ensures IntToString(10) == "10"
  {
    assert DigitChar(1) == '1' && DigitChar(0) == '0';
    assert NatToString(10) == NatToString(1) + [DigitChar(0)];
  }

  /** The completionist quest's texts are the ones `GenerateQuestDescription` writes for it, and no food collection advances it. */
  lemma CompletionistQuestTexts(q: DailyQuestSO, food: GoodFood, st: DailyState, now: Instant)
    requires IsCompletionistQuest(q)
    ensures q.questDescription == "Complete " + IntToString(q.targetValue) + NormalQuestsPhrase
    ensures EventStep(q, FoodCollected(food), st, now) == st
    ensures EventStep(q, NormalQuestDone, st, now) == AddProgressSpec(st, 2, 1, now)
  {
    assert IntToString(2) == "2" by {
      assert DigitChar(2) == '2';
    }
    assert "Complete " + "2" == "Complete 2";
  }
}

/**
 * `Quest_Manager`: the normal quests of one session. The catalog is filtered
 * down to the session's food category, random picks fill the active list up
 * to its capacity, collection events are fanned out to the active records,
 * and a completed record moves to the completed list and gets at most one
 * replacement.
 */
module QuestManagement {
  import opened Wrappers
  import opened Dates
  import opened Seqs
  import opened Enums
  import opened Foods
  import opened ScoreTable
  import opened FoodCollectionQuestDef
  import opened QuestProgressRecord

  /** The catalog entries of category `cat`, in catalog order. */
  function OfCategory(qs: seq<FoodCollectionQuest>, cat: FoodType): seq<FoodCollectionQuest> {
    if |qs| == 0 then []
    else OfCategory(qs[..|qs| - 1], cat) + (if qs[|qs| - 1].foodType == cat then [qs[|qs| - 1]] else [])
  }

  /** The active records of category `cat`, in list order. */
  function RecordsOfCategory(rs: seq<QuestProgress>, cat: FoodType): seq<QuestProgress> {
    if |rs| == 0 then []
    else RecordsOfCategory(rs[..|rs| - 1], cat) + (if rs[|rs| - 1].quest.foodType == cat then [rs[|rs| - 1]] else [])
  }

  /** Some record in `rs` belongs to the definition `q`. */
  predicate HasDef(rs: seq<QuestProgress>, q: FoodCollectionQuest) {
    exists i :: 0 <= i < |rs| && rs[i].quest == q
  }

  /** No two records in `rs` belong to the same definition. */
  predicate DistinctDefs(rs: seq<QuestProgress>) {
    forall i, j :: 0 <= i < j < |rs| ==> rs[i].quest != rs[j].quest
  }

  /** `FirstOrDefault(q => q.Quest == quest)`: the first record of the definition, if any. */
  function FirstOfDef(rs: seq<QuestProgress>, q: FoodCollectionQuest): (r: Option<nat>)
    ensures r.Some? <==> HasDef(rs, q)
    ensures r.Some? ==> (r.value < |rs| && rs[r.value].quest == q
      && forall k :: 0 <= k < r.value ==> rs[k].quest != q)
  {
    if |rs| == 0 then None
    else if rs[0].quest == q then Some(0)
    else
      match FirstOfDef(rs[1..], q)
      case None =>
        assert forall k :: 1 <= k < |rs| ==> rs[k] == rs[1..][k - 1];
        None
      case Some(i) =>
        assert rs[1..][i] == rs[i + 1];
        Some(i + 1)
  }

  class QuestManager {
    /** The catalog of quest definitions. */
    const questDatas: seq<FoodCollectionQuest>
    const maxActiveQuests: int
    const autoAssignQuests: bool
    var sessionFoodType: FoodType
    var sessionQuests: seq<FoodCollectionQuest>
    var sessionInitialized: bool
    var activeQuests: seq<QuestProgress>
    var completedQuests: seq<QuestProgress>

    /** The active list respects the capacity and holds at most one record per definition. */
    ghost predicate Valid()
      reads this
    {
      (|activeQuests| == 0 || |activeQuests| <= maxActiveQuests) && DistinctDefs(activeQuests)
    }

    /** A manager over the catalog `catalog`, before any session is set up. */
    constructor(catalog: seq<FoodCollectionQuest>, maxActive: int, autoAssign: bool)
      ensures questDatas == catalog && maxActiveQuests == maxActive && autoAssignQuests == autoAssign
      ensures !sessionInitialized && sessionQuests == [] && activeQuests == [] && completedQuests == []
      ensures Valid()
    {
      questDatas := catalog;
      maxActiveQuests := maxActive;
      autoAssignQuests := autoAssign;
      sessionFoodType := Fruit;
      sessionQuests := [];
      sessionInitialized := false;
      activeQuests := [];
      completedQuests := [];
    }

    /** Keeps the catalog entries of the session's category, in order. */
    method FilterQuestsForSession()
      modifies this
      ensures sessionQuests == OfCategory(questDatas, sessionFoodType)
      ensures sessionFoodType == old(sessionFoodType) && sessionInitialized == old(sessionInitialized)
      ensures activeQuests == old(activeQuests) && completedQuests == old(completedQuests)
    {
      if |questDatas| == 0 {
        sessionQuests := [];
        return;
      }
      var filtered: seq<FoodCollectionQuest> := [];
      for i := 0 to |questDatas|
        invariant filtered == OfCategory(questDatas[..i], sessionFoodType)
      {
        assert questDatas[..i + 1][..i] == questDatas[..i];
        if questDatas[i].foodType == sessionFoodType {
          filtered := filtered + [questDatas[i]];
        }
      }
      assert questDatas[..|questDatas|] == questDatas;
      sessionQuests := filtered;
    }

    /**
     * Adds a record for `quest` unless it is null, the active list is full, or
     * the definition already has an active record. An accepted definition
     * without selected items gets a fresh random selection first.
     */
    method AddQuest(quest: FoodCollectionQuest?, choose: nat -> nat, now: Instant) returns (added: bool)
      modifies this, quest
      ensures added <==> quest != null && |old(activeQuests)| < maxActiveQuests && !HasDef(old(activeQuests), quest)
      ensures !added ==> activeQuests == old(activeQuests) && (quest != null ==> unchanged(quest))
      ensures added ==> (|activeQuests| == |old(activeQuests)| + 1
        && activeQuests[..|old(activeQuests)|] == old(activeQuests)
        && fresh(activeQuests[|old(activeQuests)|])
        && activeQuests[|old(activeQuests)|].quest == quest
        && activeQuests[|old(activeQuests)|].State() == Initial(now))
      ensures added && |old(quest.selectedSpecificItems)| == 0 ==>
        quest.selectedSpecificItems == Take(ShuffleBy(ItemCodes(quest.foodType), choose), quest.itemCount)
        && Distinct(quest.selectedSpecificItems)
      ensures added && |old(quest.selectedSpecificItems)| > 0 ==> unchanged(quest)
      ensures completedQuests == old(completedQuests) && sessionQuests == old(sessionQuests)
      ensures sessionFoodType == old(sessionFoodType) && sessionInitialized == old(sessionInitialized)
      ensures old(Valid()) ==> Valid()
    {
      if quest == null {
        return false;
      }
      if |activeQuests| >= maxActiveQuests {
        return false;
      }
      var active := IsQuestActive(quest);
      if active {
        return false;
      }
      if |quest.selectedSpecificItems| == 0 {
        quest.GenerateRandomSpecificItems(choose);
      }
      var questProgress := new QuestProgress(quest, now);
      activeQuests := activeQuests + [questProgress];
      added := true;
    }

    /** Removes the first active record of `quest`; false when it has none. */
    method RemoveQuest(quest: FoodCollectionQuest) returns (removed: bool)
      modifies this
      ensures removed <==> HasDef(old(activeQuests), quest)
      ensures removed ==> activeQuests == RemoveFirst(old(activeQuests), old(activeQuests)[FirstOfDef(old(activeQuests), quest).value])
      ensures !removed ==> activeQuests == old(activeQuests)
      ensures old(Valid()) ==> Valid() && !HasDef(activeQuests, quest)
      ensures completedQuests == old(completedQuests) && sessionQuests == old(sessionQuests)
      ensures sessionFoodType == old(sessionFoodType) && sessionInitialized == old(sessionInitialized)
    {
      var questProgress := GetActiveQuestProgress(quest);
      if questProgress == null {
        return false;
      }
      ghost var i := FirstOfDef(activeQuests, quest).value;
      ghost var before := activeQuests;
      activeQuests := RemoveFirst(activeQuests, questProgress);
      if old(Valid()) {
        RecordIndexIsDefIndex(before, i, FirstIndex(before, questProgress));
        RemoveKeepsDistinctDefs(before, i);
      }
      removed := true;
    }

    /**
     * A record announced completed: if it is active, it moves to the completed
     * list and, when auto-assignment is on and there is room, one random
     * session definition (drawn by `roll`) is offered to `AddQuest`. Returns
     * whether the record moved and whether a replacement was added.
     */
    method CompleteQuest(record: QuestProgress, roll: nat, choose: nat -> nat, now: Instant)
      returns (moved: bool, replaced: bool)
      requires Valid()
      modifies this, set q | q in sessionQuests
      ensures Valid()
      ensures moved <==> record in old(activeQuests)
      ensures !moved ==> activeQuests == old(activeQuests) && completedQuests == old(completedQuests) && !replaced
      ensures moved ==> completedQuests == old(completedQuests) + [record]
      ensures moved ==>
        var rest := RemoveFirst(old(activeQuests), record);
        |activeQuests| == |rest| + (if replaced then 1 else 0)
        && activeQuests[..|rest|] == rest
        && (replaced <==> autoAssignQuests && |rest| < maxActiveQuests && |sessionQuests| > 0
                          && !HasDef(rest, sessionQuests[roll % |sessionQuests|]))
        && (replaced ==> activeQuests[|rest|].quest == sessionQuests[roll % |sessionQuests|]
                         && fresh(activeQuests[|rest|]) && activeQuests[|rest|].State() == Initial(now))
      ensures forall r :: r in old(activeQuests) && r != record ==> r in activeQuests
      ensures forall q :: HasDef(old(activeQuests), q) && q != record.quest ==>
        q.selectedSpecificItems == old(q.selectedSpecificItems) && q.itemCount == old(q.itemCount)
      ensures sessionQuests == old(sessionQuests) && sessionFoodType == old(sessionFoodType)
      ensures sessionInitialized == old(sessionInitialized)
    {
      replaced := false;
      if record !in activeQuests {
        return false, false;
      }
      ghost var before := activeQuests;
      ghost var i := FirstIndex(activeQuests, record);
      activeQuests := RemoveFirst(activeQuests, record);
      RecordIndexIsDefIndex(before, i, i);
      RemoveKeepsDistinctDefs(before, i);
      completedQuests := completedQuests + [record];
      moved := true;
      if autoAssignQuests && |activeQuests| < maxActiveQuests && |sessionQuests| > 0 {
        var randomQuest := sessionQuests[roll % |sessionQuests|];
        replaced := AddQuest(randomQuest, choose, now);
      }
      forall r | r in before && r != record
        ensures r in activeQuests
      {
        var k :| 0 <= k < |before| && before[k] == r;
        assert k != i;
        assert r in RemoveFirst(before, record);
        assert RemoveFirst(before, record) <= activeQuests;
      }
    }

    /**
     * While the session is set up and has definitions, draws random session
     * definitions (the `step`-th draw is `pick(step)`) and adds them until the
     * active list is full or a draw is rejected.
     */
    method AssignRandomQuests(pick: nat -> nat, choose: nat -> nat, now: Instant)
      requires Valid()
      modifies this, set q | q in sessionQuests
      ensures Valid()
      ensures !old(sessionInitialized) || |old(sessionQuests)| == 0 ==> activeQuests == old(activeQuests)
      ensures old(activeQuests) <= activeQuests
      ensures forall k :: |old(activeQuests)| <= k < |activeQuests| ==>
        fresh(activeQuests[k]) && activeQuests[k].quest in sessionQuests && activeQuests[k].State() == Initial(now)
      ensures completedQuests == old(completedQuests) && sessionQuests == old(sessionQuests)
      ensures sessionFoodType == old(sessionFoodType) && sessionInitialized == old(sessionInitialized)
      ensures forall k :: |old(activeQuests)| <= k < |activeQuests| ==>
        |sessionQuests| > 0 && activeQuests[k].quest == sessionQuests[pick(k - |old(activeQuests)|) % |sessionQuests|]
      ensures sessionInitialized && |sessionQuests| > 0 ==> Saturated(pick, |old(activeQuests)|)
    {
      if !sessionInitialized {
        return;
      }
      if |sessionQuests| == 0 {
        return;
      }
      DrawAll(pick, choose, now);
      forall k | |old(activeQuests)| <= k < |activeQuests|
        ensures activeQuests[k].quest in sessionQuests
      {
        var j := pick(k - |old(activeQuests)|) % |sessionQuests|;
        assert activeQuests[k].quest == sessionQuests[j];
      }
    }

    /** The loop of `AssignRandomQuests`: draws until the active list is full or a draw is refused. */
    method DrawAll(pick: nat -> nat, choose: nat -> nat, now: Instant)
      requires Valid() && |sessionQuests| > 0
      modifies this, set q | q in sessionQuests
      ensures Valid() && Drawn(|old(activeQuests)|, pick, now) && Saturated(pick, |old(activeQuests)|)
      ensures old(activeQuests) <= activeQuests
      ensures forall k :: |old(activeQuests)| <= k < |activeQuests| ==> fresh(activeQuests[k])
      ensures completedQuests == old(completedQuests) && sessionQuests == old(sessionQuests)
      ensures sessionFoodType == old(sessionFoodType) && sessionInitialized == old(sessionInitialized)
    {
      var step := 0;
      ghost var n0 := |activeQuests|;
      while |activeQuests| < maxActiveQuests && |sessionQuests| > 0
        invariant Valid() && Drawn(n0, pick, now)
        invariant n0 == |old(activeQuests)| && step == |activeQuests| - n0
        invariant old(activeQuests) <= activeQuests
        invariant forall k :: n0 <= k < |activeQuests| ==> fresh(activeQuests[k])
        invariant completedQuests == old(completedQuests) && sessionQuests == old(sessionQuests)
        invariant sessionFoodType == old(sessionFoodType) && sessionInitialized == old(sessionInitialized)
        decreases maxActiveQuests - |activeQuests|
      {
        ghost var before := activeQuests;
        var added := DrawOne(pick, step, n0, choose, now);
        if !added {
          return;
        }
        forall k | n0 <= k < |activeQuests|
          ensures fresh(activeQuests[k])
        {
          if k < |before| {
            assert activeQuests[k] == before[k];
          }
        }
        step := step + 1;
      }
    }

    /**
     * The loop body of `AssignRandomQuests`: the `step`-th draw, `pick(step)`,
     * picks a session definition, which is offered to `AddQuest`.
     */
    method DrawOne(pick: nat -> nat, step: nat, ghost n0: nat, choose: nat -> nat, now: Instant) returns (added: bool)
      requires Valid() && Drawn(n0, pick, now) && n0 + step == |activeQuests|
      modifies this, set q | q in sessionQuests
      ensures Valid() && Drawn(n0, pick, now)
      ensures old(activeQuests) <= activeQuests
      ensures added ==> |activeQuests| == |old(activeQuests)| + 1 && fresh(activeQuests[|activeQuests| - 1])
      ensures !added ==> activeQuests == old(activeQuests) && Saturated(pick, n0)
      ensures completedQuests == old(completedQuests) && sessionQuests == old(sessionQuests)
      ensures sessionFoodType == old(sessionFoodType) && sessionInitialized == old(sessionInitialized)
    {
      ghost var before := activeQuests;
      var randomQuest := sessionQuests[pick(step) % |sessionQuests|];
      added := AddQuest(randomQuest, choose, now);
      forall k | n0 <= k < |activeQuests|
        ensures activeQuests[k].quest == sessionQuests[pick(k - n0) % |sessionQuests|]
        ensures activeQuests[k].State() == Initial(now)
      {
        if k < |before| {
          assert activeQuests[k] == before[k];
        }
      }
    }

    /**
     * The records from position `n0` on are the successive draws of
     * `AssignRandomQuests`: the `j`-th of them holds the definition `pick(j)`
     * names and is in its initial state.
     */
    ghost predicate Drawn(n0: nat, pick: nat -> nat, now: Instant)
      reads this, activeQuests
    {
      n0 <= |activeQuests| && |sessionQuests| > 0
      && forall k :: n0 <= k < |activeQuests| ==>
           activeQuests[k].quest == sessionQuests[pick(k - n0) % |sessionQuests|] && activeQuests[k].State() == Initial(now)
    }

    /**
     * Where `AssignRandomQuests` stops, `n0` records having been active before
     * it: the list is full, or the next draw names a definition that already
     * has an active record (which `AddQuest` refuses).
     */
    ghost predicate Saturated(pick: nat -> nat, n0: nat)
      reads this, activeQuests
    {
      |activeQuests| >= maxActiveQuests
      || (|sessionQuests| > 0 && n0 <= |activeQuests|
          && HasDef(activeQuests, sessionQuests[pick(|activeQuests| - n0) % |sessionQuests|]))
    }

    /** Sets the session category, filters the catalog for it and, when enabled, assigns random quests. */
    method InitializeWithSessionFoodType(cat: FoodType, pick: nat -> nat, choose: nat -> nat, now: Instant)
      requires Valid()
      modifies this, set q | q in OfCategory(questDatas, cat)
      ensures Valid()
      ensures sessionFoodType == cat && sessionInitialized
      ensures sessionQuests == OfCategory(questDatas, cat)
      ensures !autoAssignQuests ==> activeQuests == old(activeQuests)
      ensures old(activeQuests) <= activeQuests
      ensures forall k :: |old(activeQuests)| <= k < |activeQuests| ==> activeQuests[k].quest.foodType == cat
      ensures forall k :: |old(activeQuests)| <= k < |activeQuests| ==>
        |sessionQuests| > 0 && activeQuests[k].quest == sessionQuests[pick(k - |old(activeQuests)|) % |sessionQuests|]
      ensures autoAssignQuests && |sessionQuests| > 0 ==> Saturated(pick, |old(activeQuests)|)
    {
      sessionFoodType := cat;
      sessionInitialized := true;
      FilterQuestsForSession();
      if autoAssignQuests {
        AssignRandomQuests(pick, choose, now);
        forall k | |old(activeQuests)| <= k < |activeQuests|
          ensures activeQuests[k].quest.foodType == cat
        {
          OfCategoryMembers(questDatas, cat, activeQuests[k].quest);
        }
      }
    }

    /**
     * A player collection: every active record of the food's category that
     * the snapshot taken at the start lists receives `AddSpecificItem` with the
     * food's specific item code, unless that code is -1. A record that
     * completes is handed to `CompleteQuest` at once; its replacement draw is
     * `pick(i)` for the `i`-th record of the snapshot.
     */
    method ProcessFoodCollection(food: GoodFood, pick: nat -> nat, choose: nat -> nat, now: Instant)
      returns (moved: seq<QuestProgress>, added: seq<QuestProgress>)
      requires Valid()
      modifies this, (set r | r in activeQuests), (set q | q in sessionQuests)
      ensures Valid()
      ensures forall r :: r in old(activeQuests) && (r.quest.foodType != food.foodType || GetSpecificItemValue(food) == -1) ==>
        r.State() == old(r.State())
      ensures forall r :: r in old(activeQuests) && r.quest.foodType == food.foodType && GetSpecificItemValue(food) != -1 ==>
        r.State() == AddSpecificItemSpec(old(r.State()), old(r.quest.selectedSpecificItems), old(r.TargetAmount()),
                                         GetSpecificItemValue(food), now).0
      ensures forall r :: r in old(activeQuests) ==> (r in moved <==> !old(r.isCompleted) && r.isCompleted)
      ensures forall r :: r in moved ==> r in old(activeQuests)
      ensures completedQuests == old(completedQuests) + moved
      ensures activeQuests == Without(old(activeQuests), moved) + added
      ensures |added| <= |moved| && (!autoAssignQuests ==> added == [])
      ensures forall r :: r in added ==> fresh(r) && r.quest in sessionQuests && r.State() == Initial(now)
      ensures sessionQuests == old(sessionQuests)
    {
      var snapshot := activeQuests;
      ghost var olds := seq(|snapshot|, k requires 0 <= k < |snapshot| reads snapshot => snapshot[k].State());
      ghost var items := seq(|snapshot|, k requires 0 <= k < |snapshot| reads snapshot, set r | r in snapshot :: r.quest =>
        snapshot[k].quest.selectedSpecificItems);
      ghost var counts := seq(|snapshot|, k requires 0 <= k < |snapshot| reads set r | r in snapshot :: r.quest => snapshot[k].quest.itemCount);
      WithoutNothing(snapshot, []);
      moved, added := CollectAll(snapshot, olds, items, counts, completedQuests, food, pick, choose, now);
    }

    /** The loop of `ProcessFoodCollection`: every record of `snapshot` in turn, the `i`-th with the replacement draw `pick(i)`. */
    method CollectAll(snapshot: seq<QuestProgress>, ghost olds: seq<QuestState>, ghost items: seq<seq<int>>, ghost counts: seq<int>,
                      ghost completed0: seq<QuestProgress>, food: GoodFood, pick: nat -> nat, choose: nat -> nat, now: Instant)
      returns (moved: seq<QuestProgress>, added: seq<QuestProgress>)
      requires Collecting(snapshot, olds, items, counts, completed0, [], [], 0, food, now)
      modifies this, (set r | r in snapshot), (set q | q in sessionQuests)
      ensures ListsAt(snapshot, completed0, moved, added, |snapshot|, now)
      ensures forall r :: r in snapshot ==>
        r.State() == Expected(r, food, old(r.State()), old(r.quest.selectedSpecificItems), old(r.TargetAmount()), now)
        && (r in moved <==> !old(r.isCompleted) && r.isCompleted)
      ensures forall r :: r in added ==> fresh(r)
      ensures sessionQuests == old(sessionQuests)
    {
      moved, added := [], [];
      for i := 0 to |snapshot|
        invariant Collecting(snapshot, olds, items, counts, completed0, moved, added, i, food, now)
        invariant sessionQuests == old(sessionQuests)
        invariant forall r :: r in added ==> fresh(r)
      {
        moved, added := CollectAt(snapshot, olds, items, counts, completed0, moved, added, i, food, pick(i), choose, now);
      }
      forall r | r in snapshot
        ensures r.State() == Expected(r, food, old(r.State()), old(r.quest.selectedSpecificItems), old(r.TargetAmount()), now)
        ensures r in moved <==> !old(r.isCompleted) && r.isCompleted
      {
        var k :| 0 <= k < |snapshot| && snapshot[k] == r;
      }
    }

    /**
     * How far `ProcessFoodCollection` has got after `i` records of the copy
     * `snapshot`, whose states, chosen item codes and item counts were
     * `olds`, `items` and `counts`: the records' states as `StatesAt` says,
     * the lists as `ListsAt` says.
     */
    ghost predicate Collecting(snapshot: seq<QuestProgress>, olds: seq<QuestState>, items: seq<seq<int>>, counts: seq<int>,
                               completed0: seq<QuestProgress>, moved: seq<QuestProgress>, added: seq<QuestProgress>,
                               i: nat, food: GoodFood, now: Instant)
      reads this, snapshot, added, set r | r in snapshot :: r.quest
    {
      ListsAt(snapshot, completed0, moved, added, i, now) && StatesAt(snapshot, olds, items, counts, moved, i, food, now)
    }

    /**
     * The lists after `i` records of `snapshot`: the records completed so far
     * (`moved`, in order) have left the active list for the completed one,
     * and their replacements (`added`) stand at the end of the active list.
     */
    ghost predicate ListsAt(snapshot: seq<QuestProgress>, completed0: seq<QuestProgress>, moved: seq<QuestProgress>,
                            added: seq<QuestProgress>, i: nat, now: Instant)
      reads this, added
    {
      Valid() && Distinct(snapshot) && i <= |snapshot|
      && (forall k :: i <= k < |snapshot| ==> snapshot[k] !in moved)
      && (forall r :: r in moved ==> r in snapshot)
      && completedQuests == completed0 + moved
      && activeQuests == Without(snapshot, moved) + added
      && |added| <= |moved| && (!autoAssignQuests ==> added == [])
      && (forall r :: r in added ==> r !in snapshot && r.quest in sessionQuests && r.State() == Initial(now))
    }

    /** The loop body of `ProcessFoodCollection` for the `i`-th record of the copy. */
    method CollectAt(snapshot: seq<QuestProgress>, ghost olds: seq<QuestState>, ghost items: seq<seq<int>>, ghost counts: seq<int>,
                     ghost completed0: seq<QuestProgress>, moved: seq<QuestProgress>, added: seq<QuestProgress>, i: nat,
                     food: GoodFood, roll: nat, choose: nat -> nat, now: Instant)
      returns (moved': seq<QuestProgress>, added': seq<QuestProgress>)
      requires i < |snapshot| && Collecting(snapshot, olds, items, counts, completed0, moved, added, i, food, now)
      modifies this, snapshot[i], (set q | q in sessionQuests)
      ensures Collecting(snapshot, olds, items, counts, completed0, moved', added', i + 1, food, now)
      ensures forall r :: r in added' ==> r in added || fresh(r)
      ensures sessionQuests == old(sessionQuests)
    {
      moved', added' := CollectStep(snapshot, completed0, moved, added, i, food, roll, choose, now);
      forall k | 0 <= k < |snapshot| && k != i
        ensures snapshot[k] in moved' <==> snapshot[k] in moved
      {
        assert snapshot[k] != snapshot[i];
      }
    }

    /**
     * The body of `ProcessFoodCollection` for the `i`-th record of the copy
     * `snapshot`. A record of the food's category receives the item code;
     * when that completes it, it joins `moved` and its replacement, if any,
     * joins `added`.
     */
    method CollectStep(snapshot: seq<QuestProgress>, ghost completed0: seq<QuestProgress>, moved: seq<QuestProgress>,
                       added: seq<QuestProgress>, i: nat, food: GoodFood, roll: nat, choose: nat -> nat, now: Instant)
      returns (moved': seq<QuestProgress>, added': seq<QuestProgress>)
      requires i < |snapshot| && ListsAt(snapshot, completed0, moved, added, i, now)
      modifies this, snapshot[i], (set q | q in sessionQuests)
      ensures ListsAt(snapshot, completed0, moved', added', i + 1, now)
      ensures snapshot[i].State() == Expected(snapshot[i], food, old(snapshot[i].State()),
        old(snapshot[i].quest.selectedSpecificItems), old(snapshot[i].TargetAmount()), now)
      ensures moved' == moved + (if !old(snapshot[i].isCompleted) && snapshot[i].isCompleted then [snapshot[i]] else [])
      ensures forall r :: r in added' ==> r in added || fresh(r)
      ensures forall k :: i < k < |snapshot| ==>
        snapshot[k].quest.selectedSpecificItems == old(snapshot[k].quest.selectedSpecificItems)
        && snapshot[k].quest.itemCount == old(snapshot[k].quest.itemCount)
      ensures sessionQuests == old(sessionQuests)
    {
      var record := snapshot[i];
      var value := GetSpecificItemValue(food);
      moved', added' := moved, added;
      WithoutMembers(snapshot, moved, record);
      LaterRecordsOtherDefs(snapshot, moved, added, i);
      if record.quest.foodType == food.foodType && value != -1 {
        var completedNow, replaced := CollectItem(record, value, roll, choose, now);
        if completedNow {
          RemoveFromWithout(snapshot, moved, added, record);
          moved' := moved + [record];
          ExtendsBy(activeQuests, Without(snapshot, moved'), added, replaced);
          if replaced {
            var newRecord := activeQuests[|activeQuests| - 1];
            assert newRecord.quest in sessionQuests;
            added' := added + [newRecord];
          }
        }
      }
      forall k | i + 1 <= k < |snapshot|
        ensures snapshot[k] !in moved'
      {
        assert snapshot[k] != record;
      }
      forall r | r in added'
        ensures r !in snapshot && r.quest in sessionQuests && r.State() == Initial(now)
      {
      }
    }

    /**
     * One active record receives the collected item code; when that completes
     * it, the record goes through `CompleteQuest` with the replacement draw
     * `roll`: it leaves the active list for the completed one, and may be
     * replaced at the end of the active list.
     */
    method CollectItem(record: QuestProgress, value: int, roll: nat, choose: nat -> nat, now: Instant)
      returns (completedNow: bool, replaced: bool)
      requires Valid() && record in activeQuests
      modifies this, record, (set q | q in sessionQuests)
      ensures Valid()
      ensures record.State() == AddSpecificItemSpec(old(record.State()), old(record.quest.selectedSpecificItems),
                                                    old(record.TargetAmount()), value, now).0
      ensures completedNow <==> !old(record.isCompleted) && record.isCompleted
      ensures !completedNow ==> activeQuests == old(activeQuests) && completedQuests == old(completedQuests) && !replaced
      ensures completedNow ==> completedQuests == old(completedQuests) + [record]
      ensures completedNow ==>
        var rest := RemoveFirst(old(activeQuests), record);
        |activeQuests| == |rest| + (if replaced then 1 else 0)
        && activeQuests[..|rest|] == rest
        && (replaced <==> autoAssignQuests && |rest| < maxActiveQuests && |sessionQuests| > 0
                          && !HasDef(rest, sessionQuests[roll % |sessionQuests|]))
        && (replaced ==> activeQuests[|rest|].quest == sessionQuests[roll % |sessionQuests|]
                         && fresh(activeQuests[|rest|]) && activeQuests[|rest|].State() == Initial(now))
      ensures sessionQuests == old(sessionQuests)
      ensures forall r :: r in old(activeQuests) && r != record ==> r in activeQuests
      ensures forall q :: HasDef(old(activeQuests), q) && q != record.quest ==>
        q.selectedSpecificItems == old(q.selectedSpecificItems) && q.itemCount == old(q.itemCount)
    {
      var added: bool;
      added, completedNow := record.AddSpecificItem(value, now);
      replaced := false;
      if completedNow {
        var moved: bool;
        moved, replaced := CompleteQuest(record, roll, choose, now);
      }
    }

    /** A good-food event: a bot's collection or a foreign payload reaches no quest; a player's collection or a bare food is processed. */
    method OnGoodFoodCollected(payload: EventPayload, pick: nat -> nat, choose: nat -> nat, now: Instant)
      returns (moved: seq<QuestProgress>, added: seq<QuestProgress>)
      requires Valid()
      modifies this, (set r | r in activeQuests), (set q | q in sessionQuests)
      ensures Valid()
      ensures ProcessedFood(payload).None? ==>
        && moved == [] && added == []
        && activeQuests == old(activeQuests) && completedQuests == old(completedQuests)
        && forall r :: r in old(activeQuests) ==> r.State() == old(r.State())
      ensures ProcessedFood(payload).Some? ==>
        var food := ProcessedFood(payload).value;
        && (forall r :: r in old(activeQuests) && (r.quest.foodType != food.foodType || GetSpecificItemValue(food) == -1) ==>
              r.State() == old(r.State()))
        && (forall r :: r in old(activeQuests) && r.quest.foodType == food.foodType && GetSpecificItemValue(food) != -1 ==>
              r.State() == AddSpecificItemSpec(old(r.State()), old(r.quest.selectedSpecificItems), old(r.TargetAmount()),
                                               GetSpecificItemValue(food), now).0)
        && (forall r :: r in old(activeQuests) ==> (r in moved <==> !old(r.isCompleted) && r.isCompleted))
        && (forall r :: r in moved ==> r in old(activeQuests))
        && completedQuests == old(completedQuests) + moved
        && activeQuests == Without(old(activeQuests), moved) + added
        && |added| <= |moved| && (!autoAssignQuests ==> added == [])
        && (forall r :: r in added ==> fresh(r) && r.quest in sessionQuests && r.State() == Initial(now))
    {
      match ProcessedFood(payload)
      case Some(food) =>
        moved, added := ProcessFoodCollection(food, pick, choose, now);
      case None =>
        moved, added := [], [];
    }

    /** Claims the reward of the first completed record of `quest`, if there is one. */
    method ClaimQuestReward(quest: FoodCollectionQuest, scores: GameDataManager)
      modifies (set r | r in completedQuests), scores
      ensures !HasDef(completedQuests, quest) ==> scores.playerScores == old(scores.playerScores)
      ensures HasDef(completedQuests, quest) ==>
        var r := completedQuests[FirstOfDef(completedQuests, quest).value];
        && r.State() == ClaimSpec(old(r.State()))
        && (old(r.isCompleted && !r.isRewardClaimed) ==>
              scores.playerScores == PayRewards(old(scores.playerScores), r.quest.scoreReward, r.quest.bonusScore))
        && (!old(r.isCompleted && !r.isRewardClaimed) ==> scores.playerScores == old(scores.playerScores))
    {
      var questProgress := GetCompletedQuestProgress(quest);
      if questProgress != null {
        questProgress.ClaimReward(scores);
      }
    }

    /** The first active record of `quest`, or null. */
    method GetActiveQuestProgress(quest: FoodCollectionQuest) returns (r: QuestProgress?)
      ensures r == null <==> !HasDef(activeQuests, quest)
      ensures r != null ==> r == activeQuests[FirstOfDef(activeQuests, quest).value]
    {
      match FirstOfDef(activeQuests, quest)
      case None => r := null;
      case Some(i) => r := activeQuests[i];
    }

    /** The first completed record of `quest`, or null. */
    method GetCompletedQuestProgress(quest: FoodCollectionQuest) returns (r: QuestProgress?)
      ensures r == null <==> !HasDef(completedQuests, quest)
      ensures r != null ==> r == completedQuests[FirstOfDef(completedQuests, quest).value]
    {
      match FirstOfDef(completedQuests, quest)
      case None => r := null;
      case Some(i) => r := completedQuests[i];
    }

    /** Whether some active record belongs to `quest`. */
    method IsQuestActive(quest: FoodCollectionQuest) returns (active: bool)
      ensures active <==> exists i :: 0 <= i < |activeQuests| && activeQuests[i].quest == quest
    {
      active := false;
      for i := 0 to |activeQuests|
        invariant active <==> exists k :: 0 <= k < i && activeQuests[k].quest == quest
      {
        if activeQuests[i].quest == quest {
          active := true;
        }
      }
    }

    /** Whether some completed record belongs to `quest`. */
    function IsQuestCompleted(quest: FoodCollectionQuest): (r: bool)
      reads this
      ensures r <==> exists i :: 0 <= i < |completedQuests| && completedQuests[i].quest == quest
    {
      FirstOfDef(completedQuests, quest).Some?
    }

    /** The active records of category `cat`, in list order. */
    function GetQuestsByFoodType(cat: FoodType): (rs: seq<QuestProgress>)
      reads this
      ensures forall i :: 0 <= i < |rs| ==> rs[i] in activeQuests && rs[i].quest.foodType == cat
      ensures forall i :: 0 <= i < |activeQuests| && activeQuests[i].quest.foodType == cat ==> activeQuests[i] in rs
    {
      RecordsOfCategoryMembers(activeQuests, cat);
      var rs := RecordsOfCategory(activeQuests, cat);
      rs
    }
  }

  /** `TargetAmount()` of a definition whose chosen item codes are `selected` and whose item count is `count`. */
  function TargetOf(selected: seq<int>, count: int): int {
    if |selected| > 0 then |selected| else count
  }

  /**
   * The records' states after `i` records of `snapshot`: the first `i` have
   * received the item, and those among them it completed are the ones in
   * `moved`; the rest, and their definitions, are untouched.
   */
  ghost predicate StatesAt(snapshot: seq<QuestProgress>, olds: seq<QuestState>, items: seq<seq<int>>, counts: seq<int>,
                           moved: seq<QuestProgress>, i: nat, food: GoodFood, now: Instant)
    reads snapshot, set r | r in snapshot :: r.quest
  {
    |olds| == |snapshot| && |items| == |snapshot| && |counts| == |snapshot| && i <= |snapshot|
    && (forall k :: i <= k < |snapshot| ==>
          snapshot[k].State() == olds[k] && snapshot[k].quest.selectedSpecificItems == items[k]
          && snapshot[k].quest.itemCount == counts[k])
    && (forall k :: 0 <= k < i ==>
          snapshot[k].State() == Expected(snapshot[k], food, olds[k], items[k], TargetOf(items[k], counts[k]), now)
          && (snapshot[k] in moved <==> !olds[k].isCompleted && snapshot[k].isCompleted))
  }

  /** A record's state after a collection of `food` as the processing loop leaves it. */
  function Expected(r: QuestProgress, food: GoodFood, st: QuestState, selected: seq<int>, target: int, now: Instant): QuestState {
    if r.quest.foodType == food.foodType && GetSpecificItemValue(food) != -1 then
      AddSpecificItemSpec(st, selected, target, GetSpecificItemValue(food), now).0
    else st
  }

  /**
   * While the copy `snapshot` is processed, the active list is what is left
   * of it plus the replacements; each record after the `i`-th one that has
   * not been moved is still active and belongs to another definition.
   */
  lemma LaterRecordsOtherDefs(snapshot: seq<QuestProgress>, moved: seq<QuestProgress>, added: seq<QuestProgress>, i: nat)
    requires DistinctDefs(Without(snapshot, moved) + added) && Distinct(snapshot) && i < |snapshot|
    requires forall k :: i <= k < |snapshot| ==> snapshot[k] !in moved
    ensures forall k :: i < k < |snapshot| ==>
      HasDef(Without(snapshot, moved) + added, snapshot[k].quest) && snapshot[k].quest != snapshot[i].quest
  {
    var rs := Without(snapshot, moved) + added;
    WithoutMembers(snapshot, moved, snapshot[i]);
    assert snapshot[i] in rs;
    var b :| 0 <= b < |rs| && rs[b] == snapshot[i];
    forall k | i < k < |snapshot|
      ensures HasDef(rs, snapshot[k].quest) && snapshot[k].quest != snapshot[i].quest
    {
      WithoutMembers(snapshot, moved, snapshot[k]);
      assert snapshot[k] in rs;
      var a :| 0 <= a < |rs| && rs[a] == snapshot[k];
    }
  }

  /** In a list with one record per definition, a record's position is its definition's first position. */
  lemma RecordIndexIsDefIndex(rs: seq<QuestProgress>, i: nat, j: nat)
    requires DistinctDefs(rs) && i < |rs| && j < |rs| && rs[i] == rs[j]
    requires FirstOfDef(rs, rs[i].quest).Some? ==> i == FirstOfDef(rs, rs[i].quest).value || i == j
    ensures i == j
  {
  }

  /** Taking one record out keeps one record per definition and leaves its definition without a record. */
  lemma RemoveKeepsDistinctDefs(rs: seq<QuestProgress>, i: nat)
    requires DistinctDefs(rs) && i < |rs|
    ensures DistinctDefs(rs[..i] + rs[i + 1..])
    ensures !HasDef(rs[..i] + rs[i + 1..], rs[i].quest)
    ensures forall q :: HasDef(rs[..i] + rs[i + 1..], q) <==> HasDef(rs, q) && q != rs[i].quest
  {
    var rest := rs[..i] + rs[i + 1..];
    assert forall k :: 0 <= k < |rest| ==> rest[k] == rs[if k < i then k else k + 1];
    forall q | HasDef(rs, q) && q != rs[i].quest
      ensures HasDef(rest, q)
    {
      var k :| 0 <= k < |rs| && rs[k].quest == q;
      assert k != i;
      assert rest[if k < i then k else k - 1].quest == q;
    }
  }

  /** The filtered catalog holds exactly the catalog entries of the category. */
  lemma {:induction false} OfCategoryMembers(qs: seq<FoodCollectionQuest>, cat: FoodType, q: FoodCollectionQuest)
    ensures q in OfCategory(qs, cat) <==> q in qs && q.foodType == cat
  {
    if |qs| > 0 {
      OfCategoryMembers(qs[..|qs| - 1], cat, q);
      assert qs == qs[..|qs| - 1] + [qs[|qs| - 1]];
    }
  }

  /** The records of a category are exactly the listed records of that category. */
  lemma {:induction false} RecordsOfCategoryMembers(rs: seq<QuestProgress>, cat: FoodType)
    ensures forall i :: 0 <= i < |RecordsOfCategory(rs, cat)| ==>
      RecordsOfCategory(rs, cat)[i] in rs && RecordsOfCategory(rs, cat)[i].quest.foodType == cat
    ensures forall i :: 0 <= i < |rs| && rs[i].quest.foodType == cat ==> rs[i] in RecordsOfCategory(rs, cat)
  {
    if |rs| > 0 {
      var init := rs[..|rs| - 1];
      RecordsOfCategoryMembers(init, cat);
      assert forall i :: 0 <= i < |init| ==> rs[i] == init[i];
      var fi := RecordsOfCategory(init, cat);
      var f := RecordsOfCategory(rs, cat);
      forall i | 0 <= i < |f|
        ensures f[i] in rs && f[i].quest.foodType == cat
      {
        if i < |fi| {
          assert f[i] == fi[i];
        } else {
          assert f[i] == rs[|rs| - 1];
        }
      }
    }
  }

  /** Filtering is idempotent and an empty catalog gives an empty session. */
  lemma {:induction false} OfCategoryIdempotent(qs: seq<FoodCollectionQuest>, cat: FoodType)
    ensures OfCategory(OfCategory(qs, cat), cat) == OfCategory(qs, cat)
    ensures OfCategory([], cat) == []
  {
    if |qs| > 0 {
      var init := qs[..|qs| - 1];
      OfCategoryIdempotent(init, cat);
      var f := OfCategory(init, cat);
      var x := qs[|qs| - 1];
      if x.foodType == cat {
        var g := f + [x];
        assert OfCategory(qs, cat) == g;
        assert g[..|g| - 1] == f;
        assert OfCategory(g, cat) == OfCategory(f, cat) + [x];
      } else {
        assert OfCategory(qs, cat) == f;
      }
    }
  }

  /**
   * The definition of a record that has just been moved out of a list with one
   * record per definition is no longer active, so `AddQuest` accepts it again
   * as the replacement when there is room.
   */
  lemma CompletedDefinitionCanReturn(rs: seq<QuestProgress>, record: QuestProgress)
    requires DistinctDefs(rs) && record in rs
    ensures !HasDef(RemoveFirst(rs, record), record.quest)
  {
    RemoveKeepsDistinctDefs(rs, FirstIndex(rs, record));
  }
}

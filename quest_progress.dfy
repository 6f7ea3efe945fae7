/**
 * `QuestProgress`: one player's progress on a normal quest. The record
 * collects the quest's selected items one at a time, completes once the count
 * reaches the quest's target, and pays its score reward once.
 */
module QuestProgressRecord {
  import opened Dates
  import opened Seqs
  import opened Mathf
  import opened ScoreTable
  import opened Enums
  import opened FoodCollectionQuestDef

  /** The record's fields, as a value. */
  datatype QuestState = QuestState(
    currentAmount: int,
    isCompleted: bool,
    isRewardClaimed: bool,
    startTime: Instant,
    completionTime: Instant,
    collected: seq<int>)

  /** A fresh record started at `now`. */
  function Initial(now: Instant): QuestState {
    QuestState(0, false, false, now, MinValue, [])
  }

  /** `CompleteQuest` when the amount has reached the target and the record is still open. */
  function CompleteIfReached(st: QuestState, target: int, now: Instant): QuestState {
    if st.currentAmount >= target && !st.isCompleted then st.(isCompleted := true, completionTime := now) else st
  }

  /** `AddProgress(amount)` against a quest whose target is `target`. */
  function AddProgressSpec(st: QuestState, target: int, amount: int, now: Instant): QuestState {
    if st.isCompleted then st
    else CompleteIfReached(st.(currentAmount := Clamp(st.currentAmount + amount, 0, target)), target, now)
  }

  /** `SetProgress(amount)` against a quest whose target is `target`. */
  function SetProgressSpec(st: QuestState, target: int, amount: int, now: Instant): QuestState {
    if st.isCompleted then st
    else CompleteIfReached(st.(currentAmount := Clamp(amount, 0, target)), target, now)
  }

  /** `ResetProgress`: every field back to a fresh record's value, restarted at `now`. */
  function ResetSpec(now: Instant): QuestState {
    Initial(now)
  }

  /**
   * `AddSpecificItem(item)` against a quest whose selection is `selected` and
   * target `target`: the new state and the returned flag.
   */
  function AddSpecificItemSpec(st: QuestState, selected: seq<int>, target: int, item: int, now: Instant): (QuestState, bool) {
    if st.isCompleted then (st, false)
    else if item !in selected then (ResetSpec(now), false)
    else if item in st.collected then (st, false)
    else
      var c := st.collected + [item];
      (CompleteIfReached(st.(collected := c, currentAmount := |c|), target, now), true)
  }

  /** `ClaimReward` on the record's own fields. */
  function ClaimSpec(st: QuestState): QuestState {
    if !st.isCompleted || st.isRewardClaimed then st else st.(isRewardClaimed := true)
  }

  /** The main player's score table after a claim pays `reward` and then `bonus`, each only when positive. */
  function PayRewards(scores: map<PlayerType, int>, reward: int, bonus: int): map<PlayerType, int> {
    var afterReward := if reward > 0 then AddScoreSpec(scores, Player, reward) else scores;
    if bonus > 0 then AddScoreSpec(afterReward, Player, bonus) else afterReward
  }

  /** A positive amount, or nothing. */
  function Positive(x: int): int {
    if x > 0 then x else 0
  }

  /** The collected list only holds distinct selected items. */
  predicate CollectedWellFormed(st: QuestState, selected: seq<int>) {
    Distinct(st.collected) && forall x :: x in st.collected ==> x in selected
  }

  class QuestProgress {
    const quest: FoodCollectionQuest
    var currentAmount: int
    var isCompleted: bool
    var isRewardClaimed: bool
    var startTime: Instant
    var completionTime: Instant
    var collectedSpecificItems: seq<int>

    /** The record's fields as a value. */
    function State(): QuestState
      reads this
    {
      QuestState(currentAmount, isCompleted, isRewardClaimed, startTime, completionTime, collectedSpecificItems)
    }

    /** The collected list holds distinct items of the quest's current selection. */
    predicate Valid()
      reads this, quest
    {
      CollectedWellFormed(State(), quest.selectedSpecificItems)
    }

    /** A new record for `q`, started at `now`: amount 0, open, unclaimed, nothing collected. */
    constructor(q: FoodCollectionQuest, now: Instant)
      ensures quest == q
      ensures State() == Initial(now)
      ensures currentAmount == 0 && !isCompleted && !isRewardClaimed && collectedSpecificItems == []
      ensures Valid()
    {
      quest := q;
      currentAmount := 0;
      isCompleted := false;
      isRewardClaimed := false;
      startTime := now;
      completionTime := MinValue;
      collectedSpecificItems := [];
    }

    /** The quest's target amount. */
    function TargetAmount(): int
      reads this, quest
    {
      quest.TargetAmount()
    }

    /** Marks the record completed at `now`. */
    method CompleteQuest(now: Instant)
      modifies this
      ensures State() == old(State()).(isCompleted := true, completionTime := now)
    {
      isCompleted := true;
      completionTime := now;
    }

    /**
     * Adds `amount` (clamped into `[0, target]`) on an open record and
     * completes it once the target is reached; `completedNow` reports the
     * completion the record announces.
     */
    method AddProgress(amount: int, now: Instant) returns (completedNow: bool)
      modifies this
      ensures State() == AddProgressSpec(old(State()), TargetAmount(), amount, now)
      ensures completedNow <==> !old(isCompleted) && isCompleted
    {
      completedNow := false;
      if isCompleted {
        return;
      }
      currentAmount := currentAmount + amount;
      currentAmount := Clamp(currentAmount, 0, TargetAmount());
      if currentAmount >= TargetAmount() && !isCompleted {
        CompleteQuest(now);
        completedNow := true;
      }
    }

    /** Sets the amount (clamped into `[0, target]`) on an open record, completing it at the target. */
    method SetProgress(amount: int, now: Instant) returns (completedNow: bool)
      modifies this
      ensures State() == SetProgressSpec(old(State()), TargetAmount(), amount, now)
      ensures completedNow <==> !old(isCompleted) && isCompleted
    {
      completedNow := false;
      if isCompleted {
        return;
      }
      currentAmount := Clamp(amount, 0, TargetAmount());
      if currentAmount >= TargetAmount() && !isCompleted {
        CompleteQuest(now);
        completedNow := true;
      }
    }

    /** Returns every field to a fresh record's value, restarted at `now`. */
    method ResetProgress(now: Instant)
      modifies this
      ensures State() == ResetSpec(now)
    {
      currentAmount := 0;
      isCompleted := false;
      isRewardClaimed := false;
      startTime := now;
      completionTime := MinValue;
      collectedSpecificItems := [];
    }

    /**
     * Records one collected item: a completed record ignores it, an item the
     * quest does not require resets the record, an item already collected is
     * ignored, and a new required item is appended and counted.
     */
    method AddSpecificItem(item: int, now: Instant) returns (added: bool, completedNow: bool)
      modifies this
      ensures (State(), added) == AddSpecificItemSpec(old(State()), quest.selectedSpecificItems, TargetAmount(), item, now)
      ensures completedNow <==> !old(isCompleted) && isCompleted
      ensures old(Valid()) ==> Valid()
    {
      completedNow := false;
      if isCompleted {
        return false, false;
      }
      if !quest.IsSpecificItemRequired(item) {
        ResetProgress(now);
        return false, false;
      }
      if item in collectedSpecificItems {
        return false, false;
      }
      collectedSpecificItems := collectedSpecificItems + [item];
      currentAmount := |collectedSpecificItems|;
      if currentAmount >= TargetAmount() && !isCompleted {
        CompleteQuest(now);
        completedNow := true;
      }
      added := true;
      if old(Valid()) {
        AddSpecificItemKeepsWellFormed(old(State()), quest.selectedSpecificItems, TargetAmount(), item, now);
      }
    }

    /**
     * Claims the reward of a completed, unclaimed record: marks it claimed and
     * adds the quest's score reward and then its bonus to the main player's
     * score, each only when positive.
     */
    method ClaimReward(scores: GameDataManager)
      modifies this, scores
      ensures State() == ClaimSpec(old(State()))
      ensures old(isCompleted && !isRewardClaimed) ==>
        scores.playerScores == PayRewards(old(scores.playerScores), quest.scoreReward, quest.bonusScore)
      ensures !old(isCompleted && !isRewardClaimed) ==> scores.playerScores == old(scores.playerScores)
    {
      if !isCompleted || isRewardClaimed {
        return;
      }
      isRewardClaimed := true;
      if quest.scoreReward > 0 {
        var _, _ := scores.AddPlayerScore(quest.scoreReward);
      }
      if quest.bonusScore > 0 {
        var _, _ := scores.AddPlayerScore(quest.bonusScore);
      }
    }

    /** Whether the item is required by the quest and not collected yet. */
    function IsSpecificItemNeeded(item: int): (r: bool)
      reads this, quest
      ensures r <==> item in quest.selectedSpecificItems && item !in collectedSpecificItems
    {
      quest.IsSpecificItemRequired(item) && item !in collectedSpecificItems
    }
  }

  /** A successful `AddSpecificItem` keeps the collected list distinct and within the selection. */
  lemma AddSpecificItemKeepsWellFormed(st: QuestState, selected: seq<int>, target: int, item: int, now: Instant)
    requires CollectedWellFormed(st, selected)
    ensures CollectedWellFormed(AddSpecificItemSpec(st, selected, target, item, now).0, selected)
  {
    var (st', added) := AddSpecificItemSpec(st, selected, target, item, now);
    if added {
      assert st'.collected == st.collected + [item];
      assert item !in st.collected;
    }
  }

  /** On an open record with a non-negative target, `AddProgress` keeps the amount in `[0, target]` and completes exactly at the target. */
  lemma AddProgressBounds(st: QuestState, target: int, amount: int, now: Instant)
    requires !st.isCompleted && 0 <= target
    ensures var st' := AddProgressSpec(st, target, amount, now);
      0 <= st'.currentAmount <= target
      && (st'.isCompleted <==> st'.currentAmount == target)
      && (st'.isCompleted ==> st'.completionTime == now)
      && st'.collected == st.collected && !st'.isRewardClaimed == !st.isRewardClaimed
  {
  }

  /** On an open record with a non-negative target, `SetProgress` keeps the amount in `[0, target]` and completes exactly at the target. */
  lemma SetProgressBounds(st: QuestState, target: int, amount: int, now: Instant)
    requires !st.isCompleted && 0 <= target
    ensures var st' := SetProgressSpec(st, target, amount, now);
      0 <= st'.currentAmount <= target
      && (st'.isCompleted <==> st'.currentAmount == target)
      && (0 <= amount <= target ==> st'.currentAmount == amount)
  {
  }

  /** A completed record ignores progress of every kind, and `AddSpecificItem` reports false. */
  lemma CompletedIsFrozen(st: QuestState, selected: seq<int>, target: int, x: int, now: Instant)
    requires st.isCompleted
    ensures AddProgressSpec(st, target, x, now) == st
    ensures SetProgressSpec(st, target, x, now) == st
    ensures AddSpecificItemSpec(st, selected, target, x, now) == (st, false)
  {
  }

  /** An item the quest does not require resets the record and reports false. */
  lemma UnrequiredItemResets(st: QuestState, selected: seq<int>, target: int, item: int, now: Instant)
    requires !st.isCompleted && item !in selected
    ensures var (st', added) := AddSpecificItemSpec(st, selected, target, item, now);
      !added && st'.currentAmount == 0 && st'.collected == [] && !st'.isCompleted && !st'.isRewardClaimed
  {
  }

  /** An item already collected changes nothing and reports false. */
  lemma RepeatedItemIgnored(st: QuestState, selected: seq<int>, target: int, item: int, now: Instant)
    requires item in selected && item in st.collected
    ensures AddSpecificItemSpec(st, selected, target, item, now) == (st, false)
  {
  }

  /**
   * On an open record whose amount counts its collected items, collecting the
   * same required item twice raises the amount by exactly one.
   */
  lemma SameItemTwiceCountsOnce(st: QuestState, selected: seq<int>, target: int, item: int, now1: Instant, now2: Instant)
    requires !st.isCompleted && item in selected && item !in st.collected
    requires st.currentAmount == |st.collected|
    ensures var (st1, added1) := AddSpecificItemSpec(st, selected, target, item, now1);
      var (st2, added2) := AddSpecificItemSpec(st1, selected, target, item, now2);
      added1 && !added2 && st2 == st1 && st2.currentAmount == st.currentAmount + 1
  {
    var (st1, _) := AddSpecificItemSpec(st, selected, target, item, now1);
    assert item in st1.collected;
  }

  /**
   * After a successful `AddSpecificItem` on a well-formed record, the amount
   * equals the number of collected items, which never exceeds the target, and
   * the record is completed exactly when it equals the target.
   */
  lemma AddedItemCounts(st: QuestState, selected: seq<int>, item: int, now: Instant)
    requires CollectedWellFormed(st, selected)
    requires AddSpecificItemSpec(st, selected, |selected|, item, now).1
    ensures var st' := AddSpecificItemSpec(st, selected, |selected|, item, now).0;
      CollectedWellFormed(st', selected)
      && st'.currentAmount == |st'.collected| <= |selected|
      && item in st'.collected
      && (st'.isCompleted <==> st'.currentAmount == |selected|)
  {
    var st' := AddSpecificItemSpec(st, selected, |selected|, item, now).0;
    AddSpecificItemKeepsWellFormed(st, selected, |selected|, item, now);
    assert forall x :: x in st'.collected ==> x in selected;
    DistinctSubsequenceLength(st'.collected, selected);
  }

  /** A claim pays once: only a completed, unclaimed record changes, and a second claim changes nothing. */
  lemma ClaimOnce(st: QuestState)
    ensures ClaimSpec(st) != st <==> st.isCompleted && !st.isRewardClaimed
    ensures ClaimSpec(ClaimSpec(st)) == ClaimSpec(st)
    ensures ClaimSpec(st).isRewardClaimed <==> st.isRewardClaimed || st.isCompleted
  {
  }

  /** The rewards raise the main player's score and the total by the positive parts of both amounts, and no other score. */
  lemma PayRewardsAmounts(scores: map<PlayerType, int>, reward: int, bonus: int)
    ensures Score(PayRewards(scores, reward, bonus), Player) == Score(scores, Player) + Positive(reward) + Positive(bonus)
    ensures Total(PayRewards(scores, reward, bonus)) == Total(scores) + Positive(reward) + Positive(bonus)
    ensures forall t :: t != Player ==> Score(PayRewards(scores, reward, bonus), t) == Score(scores, t)
  {
    var afterReward := if reward > 0 then AddScoreSpec(scores, Player, reward) else scores;
    if reward > 0 {
      AddScoreRaisesTotal(scores, Player, reward);
    }
    if bonus > 0 {
      AddScoreRaisesTotal(afterReward, Player, bonus);
    }
  }
}

/**
 * `DailyQuestProgress`: progress on one daily quest. The record belongs to
 * the day it was assigned, stops accepting progress once that day is over,
 * and pays its gold reward once.
 */
module DailyQuestProgressRecord {
  import opened Wrappers
  import opened Text
  import opened Dates
  import opened Mathf
  import Prefs
  import GameData
  import opened DailyQuestDef

  /** The record's fields, as a value. */
  datatype DailyState = DailyState(
    currentProgress: int,
    isCompleted: bool,
    isRewardClaimed: bool,
    assignedDate: Instant,
    completionTime: Instant)

  /** Today's date is strictly after the day the quest was assigned; times of day play no part. */
  predicate Expired(st: DailyState, now: Instant) {
    Before(st.assignedDate.date, now.date)
  }

  /** `CompleteQuest` when the progress has reached the target and the record is still open. */
  function CompleteIfReached(st: DailyState, target: int, now: Instant): DailyState {
    if st.currentProgress >= target && !st.isCompleted then st.(isCompleted := true, completionTime := now) else st
  }

  /** `AddProgress(amount)` at `now` against a quest whose target is `target`. */
  function AddProgressSpec(st: DailyState, target: int, amount: int, now: Instant): DailyState {
    if st.isCompleted || Expired(st, now) then st
    else CompleteIfReached(st.(currentProgress := Clamp(st.currentProgress + amount, 0, target)), target, now)
  }

  /** `SetProgress(amount)` at `now` against a quest whose target is `target`. */
  function SetProgressSpec(st: DailyState, target: int, amount: int, now: Instant): DailyState {
    if st.isCompleted || Expired(st, now) then st
    else CompleteIfReached(st.(currentProgress := Clamp(amount, 0, target)), target, now)
  }

  /** `ClaimReward` on the record's own fields. */
  function ClaimSpec(st: DailyState): DailyState {
    if !st.isCompleted || st.isRewardClaimed then st else st.(isRewardClaimed := true)
  }

  /** `ResetProgress` at `now`: progress 0, both flags cleared, reassigned to `now`; the completion time stays. */
  function ResetSpec(st: DailyState, now: Instant): DailyState {
    st.(currentProgress := 0, isCompleted := false, isRewardClaimed := false, assignedDate := now)
  }

  class DailyQuestProgress {
    const quest: DailyQuestSO
    var currentProgress: int
    var isCompleted: bool
    var isRewardClaimed: bool
    var assignedDate: Instant
    var completionTime: Instant

    /** The record's fields as a value. */
    function State(): DailyState
      reads this
    {
      DailyState(currentProgress, isCompleted, isRewardClaimed, assignedDate, completionTime)
    }

    /** A new record for `q`, assigned at `now`: progress 0, open, unclaimed. */
    constructor(q: DailyQuestSO, now: Instant)
      ensures quest == q
      ensures State() == DailyState(0, false, false, now, MinValue)
    {
      quest := q;
      currentProgress := 0;
      isCompleted := false;
      isRewardClaimed := false;
      assignedDate := now;
      completionTime := MinValue;
    }

    /** A record restored from saved values, stored as given: no clamping and no consistency check. */
    constructor Load(q: DailyQuestSO, progress: int, completed: bool, rewardClaimed: bool, assignedOn: Instant)
      ensures quest == q
      ensures State() == DailyState(progress, completed, rewardClaimed, assignedOn, MinValue)
    {
      quest := q;
      currentProgress := progress;
      isCompleted := completed;
      isRewardClaimed := rewardClaimed;
      assignedDate := assignedOn;
      completionTime := MinValue;
    }

    /** The quest's target value. */
    function TargetProgress(): int
      reads this, quest
    {
      quest.targetValue
    }

    /** Whether the record's day is over at `now`. */
    function IsExpired(now: Instant): (r: bool)
      reads this
      ensures r <==> Expired(State(), now)
    {
      Before(assignedDate.date, now.date)
    }

    /** Marks the record completed at `now`. */
    method CompleteQuest(now: Instant)
      modifies this
      ensures State() == old(State()).(isCompleted := true, completionTime := now)
    {
      isCompleted := true;
      completionTime := now;
    }

    /** Adds `amount` (clamped into `[0, target]`) while the record is open and its day lasts, completing it at the target. */
    method AddProgress(amount: int, now: Instant) returns (completedNow: bool)
      modifies this
      ensures State() == AddProgressSpec(old(State()), TargetProgress(), amount, now)
      ensures completedNow <==> !old(isCompleted) && isCompleted
    {
      completedNow := false;
      if isCompleted || IsExpired(now) {
        return;
      }
      currentProgress := currentProgress + amount;
      currentProgress := Clamp(currentProgress, 0, TargetProgress());
      if currentProgress >= TargetProgress() && !isCompleted {
        CompleteQuest(now);
        completedNow := true;
      }
    }

    /** Sets the progress (clamped into `[0, target]`) while the record is open and its day lasts, completing it at the target. */
    method SetProgress(amount: int, now: Instant) returns (completedNow: bool)
      modifies this
      ensures State() == SetProgressSpec(old(State()), TargetProgress(), amount, now)
      ensures completedNow <==> !old(isCompleted) && isCompleted
    {
      completedNow := false;
      if isCompleted || IsExpired(now) {
        return;
      }
      currentProgress := Clamp(amount, 0, TargetProgress());
      if currentProgress >= TargetProgress() && !isCompleted {
        CompleteQuest(now);
        completedNow := true;
      }
    }

    /** Claims a completed, unclaimed record: marks it claimed and adds the quest's gold reward when positive. */
    method ClaimReward(prefs: Prefs.PlayerPrefs)
      modifies this, prefs
      ensures State() == ClaimSpec(old(State()))
      ensures old(isCompleted && !isRewardClaimed) ==> prefs.Contents() == GameData.PayGold(old(prefs.Contents()), quest.goldReward)
      ensures !old(isCompleted && !isRewardClaimed) ==> prefs.Contents() == old(prefs.Contents())
    {
      if !isCompleted || isRewardClaimed {
        return;
      }
      isRewardClaimed := true;
      if quest.goldReward > 0 {
        GameData.SetGold(prefs, GameData.Gold(prefs.Contents()) + quest.goldReward);
      }
    }

    /** The progress as `"{current}/{target}"`. */
    function GetProgressText(): (text: string)
      reads this, quest
      ensures InLongRange(currentProgress) && InLongRange(TargetProgress()) ==>
        ParseProgressText(text) == Some((currentProgress, TargetProgress()))
    {
      var text := ProgressText(currentProgress, TargetProgress());
      if InLongRange(currentProgress) && InLongRange(TargetProgress()) then
        ProgressTextRoundTrip(currentProgress, TargetProgress());
        text
      else
        text
    }

    /** Reopens the record for `now`: progress 0, flags cleared, date reassigned; the completion time is kept. */
    method ResetProgress(now: Instant)
      modifies this
      ensures State() == ResetSpec(old(State()), now)
    {
      currentProgress := 0;
      isCompleted := false;
      isRewardClaimed := false;
      assignedDate := now;
    }
  }

  /** A completed or expired record ignores progress. */
  lemma FrozenWhenCompletedOrExpired(st: DailyState, target: int, x: int, now: Instant)
    requires st.isCompleted || Expired(st, now)
    ensures AddProgressSpec(st, target, x, now) == st
    ensures SetProgressSpec(st, target, x, now) == st
  {
  }

  /** On an open, current record with a non-negative target, progress stays in `[0, target]` and completion comes exactly at the target. */
  lemma ProgressBounds(st: DailyState, target: int, x: int, now: Instant)
    requires !st.isCompleted && !Expired(st, now) && 0 <= target
    ensures var a := AddProgressSpec(st, target, x, now);
      0 <= a.currentProgress <= target && (a.isCompleted <==> a.currentProgress == target)
    ensures var b := SetProgressSpec(st, target, x, now);
      0 <= b.currentProgress <= target && (b.isCompleted <==> b.currentProgress == target)
  {
  }

  /** Expiry compares calendar dates only, is never true on the assignment day, and once true stays true on later days. */
  lemma ExpiryByDate(st: DailyState, now: Instant, later: Instant)
    requires !Before(later.date, now.date)
    ensures Expired(st, now) <==> Expired(st, DateTime(now.date, 0))
    ensures now.date == st.assignedDate.date ==> !Expired(st, now)
    ensures Expired(st, now) ==> Expired(st, later)
  {
  }

  /** Gold rises by the reward exactly once, and only a positive reward pays; a second claim changes nothing. */
  lemma ClaimPaysOnce(st: DailyState, s: Prefs.Store, reward: int)
    ensures ClaimSpec(ClaimSpec(st)) == ClaimSpec(st)
    ensures ClaimSpec(st) != st <==> st.isCompleted && !st.isRewardClaimed
    ensures GameData.Gold(GameData.PayGold(s, reward)) == GameData.Gold(s) + (if reward > 0 then reward else 0)
  {
  }

  /** The reset reopens the record on the new day and keeps its completion time. */
  lemma ResetReopens(st: DailyState, now: Instant)
    ensures var r := ResetSpec(st, now);
      r.currentProgress == 0 && !r.isCompleted && !r.isRewardClaimed && !Expired(r, now)
      && r.completionTime == st.completionTime
  {
  }
}

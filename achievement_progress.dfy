/**
 * `AchievementProgress`: the player's record for one achievement. Progress is
 * clamped to the definition's target, the record unlocks once and for all
 * when the target is reached, and its gold reward is paid once.
 */
module AchievementProgressRecord {
  import opened Wrappers
  import opened Text
  import opened Mathf
  import Prefs
  import GameData
  import opened AchievementSave
  import opened AchievementDef

  /** The record's saved fields, as a value. */
  datatype AchState = AchState(
    currentProgress: int,
    isUnlocked: bool,
    isRewardClaimed: bool,
    unlockedDate: BinaryDate)

  /** The state of a new record: progress 0, locked, unclaimed, unlock date `MinValue`. */
  const Fresh: AchState := AchState(0, false, false, MinValueBinary)

  /** `UnlockAchievement` at `now`: a record that is already unlocked keeps its flag and date. */
  function UnlockSpec(st: AchState, now: BinaryDate): AchState {
    if st.isUnlocked then st else st.(isUnlocked := true, unlockedDate := now)
  }

  /** The unlock check that follows each progress change. */
  function UnlockIfReached(st: AchState, target: int, now: BinaryDate): AchState {
    if st.currentProgress >= target && !st.isUnlocked then UnlockSpec(st, now) else st
  }

  /**
   * `AddProgress(amount)` at `now`; `target` is the attached definition's
   * target value, `None` when no definition is attached.
   */
  function AddProgressSpec(st: AchState, target: Option<int>, amount: int, now: BinaryDate): AchState {
    if st.isUnlocked || target.None? then st
    else UnlockIfReached(st.(currentProgress := Clamp(st.currentProgress + amount, 0, target.value)), target.value, now)
  }

  /** `SetProgress(amount)` at `now`, with `target` as in `AddProgressSpec`. */
  function SetProgressSpec(st: AchState, target: Option<int>, amount: int, now: BinaryDate): AchState {
    if st.isUnlocked || target.None? then st
    else UnlockIfReached(st.(currentProgress := Clamp(amount, 0, target.value)), target.value, now)
  }

  /** `ClaimReward` on the record's own fields; `attached` says whether a definition is attached. */
  function ClaimSpec(st: AchState, attached: bool): AchState {
    if !st.isUnlocked || st.isRewardClaimed || !attached then st else st.(isRewardClaimed := true)
  }

  /** The status shown for a record. */
  function StatusText(st: AchState): string {
    if st.isUnlocked then (if st.isRewardClaimed then "Claimed" else "Completed") else "In Progress"
  }

  /** The save entry written for a record with id `id`. */
  function EntryOf(id: string, st: AchState): AchievementSaveEntry {
    NewEntry(id, st.currentProgress, st.isUnlocked, st.isRewardClaimed, st.unlockedDate)
  }

  /** The state the load constructor gives a record restored from `e`. */
  function StateOf(e: AchievementSaveEntry): AchState {
    AchState(e.currentProgress, e.isUnlocked, e.isRewardClaimed, GetUnlockedDate(e))
  }

  class AchievementProgress {
    const achievementId: string
    var currentProgress: int
    var isUnlocked: bool
    var isRewardClaimed: bool
    var unlockedDate: BinaryDate
    /** The definition, attached at run time; null until then. */
    var achievement: AchievementSO?

    /** The record's saved fields as a value. */
    function State(): AchState
      reads this
    {
      AchState(currentProgress, isUnlocked, isRewardClaimed, unlockedDate)
    }

    /** The attached definition's target value, or `None` when none is attached. */
    function Target(): (t: Option<int>)
      reads this, achievement
      ensures t.None? <==> achievement == null
      ensures achievement != null ==> t == Some(achievement.targetValue)
    {
      if achievement == null then None else Some(achievement.targetValue)
    }

    /** A new record for the achievement `id`. */
    constructor(id: string)
      ensures achievementId == id && achievement == null
      ensures State() == Fresh
    {
      achievementId := id;
      currentProgress := 0;
      isUnlocked := false;
      isRewardClaimed := false;
      unlockedDate := MinValueBinary;
      achievement := null;
    }

    /** A record restored from saved values, stored as given. */
    constructor Load(id: string, progress: int, unlocked: bool, rewardClaimed: bool, date: BinaryDate)
      ensures achievementId == id && achievement == null
      ensures State() == AchState(progress, unlocked, rewardClaimed, date)
    {
      achievementId := id;
      currentProgress := progress;
      isUnlocked := unlocked;
      isRewardClaimed := rewardClaimed;
      unlockedDate := date;
      achievement := null;
    }

    method SetAchievementSO(so: AchievementSO?)
      modifies this
      ensures achievement == so && State() == old(State())
    {
      achievement := so;
    }

    /** Unlocks the record at `now` unless it is already unlocked. */
    method UnlockAchievement(now: BinaryDate) returns (unlockedNow: bool)
      modifies this
      ensures State() == UnlockSpec(old(State()), now)
      ensures unlockedNow <==> !old(isUnlocked)
      ensures achievement == old(achievement)
    {
      unlockedNow := false;
      if isUnlocked {
        return;
      }
      isUnlocked := true;
      unlockedDate := now;
      unlockedNow := true;
    }

    /** Adds `amount` (clamped into `[0, target]`) while locked and attached, unlocking at the target. */
    method AddProgress(amount: int, now: BinaryDate) returns (unlockedNow: bool)
      modifies this
      ensures State() == AddProgressSpec(old(State()), old(Target()), amount, now)
      ensures unlockedNow <==> !old(isUnlocked) && isUnlocked
      ensures achievement == old(achievement)
    {
      unlockedNow := false;
      if isUnlocked || achievement == null {
        return;
      }
      currentProgress := currentProgress + amount;
      currentProgress := Clamp(currentProgress, 0, achievement.targetValue);
      if currentProgress >= achievement.targetValue && !isUnlocked {
        unlockedNow := UnlockAchievement(now);
      }
    }

    /** Sets the progress (clamped into `[0, target]`) while locked and attached, unlocking at the target. */
    method SetProgress(amount: int, now: BinaryDate) returns (unlockedNow: bool)
      modifies this
      ensures State() == SetProgressSpec(old(State()), old(Target()), amount, now)
      ensures unlockedNow <==> !old(isUnlocked) && isUnlocked
      ensures achievement == old(achievement)
    {
      unlockedNow := false;
      if isUnlocked || achievement == null {
        return;
      }
      currentProgress := Clamp(amount, 0, achievement.targetValue);
      if currentProgress >= achievement.targetValue && !isUnlocked {
        unlockedNow := UnlockAchievement(now);
      }
    }

    /**
     * Claims an unlocked, unclaimed, attached record: marks it claimed and
     * adds the definition's gold reward when positive.
     */
    method ClaimReward(prefs: Prefs.PlayerPrefs)
      modifies this, prefs
      ensures State() == ClaimSpec(old(State()), old(achievement) != null)
      ensures achievement == old(achievement)
      ensures old(isUnlocked && !isRewardClaimed) && achievement != null ==>
        prefs.Contents() == GameData.PayGold(old(prefs.Contents()), achievement.goldReward)
      ensures !(old(isUnlocked && !isRewardClaimed) && achievement != null) ==>
        prefs.Contents() == old(prefs.Contents())
    {
      if !isUnlocked || isRewardClaimed || achievement == null {
        return;
      }
      isRewardClaimed := true;
      if achievement.goldReward > 0 {
        GameData.SetGold(prefs, GameData.Gold(prefs.Contents()) + achievement.goldReward);
      }
    }

    /** `"0/0"` without a definition, `"{current}/{target}"` with one. */
    function GetProgressText(): (text: string)
      reads this, achievement
      ensures achievement == null ==> ParseProgressText(text) == Some((0, 0))
      ensures achievement != null && InLongRange(currentProgress) && InLongRange(achievement.targetValue) ==>
        ParseProgressText(text) == Some((currentProgress, achievement.targetValue))
    {
      if achievement == null then
        ZeroProgressText();
        "0/0"
      else
        var text := ProgressText(currentProgress, achievement.targetValue);
        if InLongRange(currentProgress) && InLongRange(achievement.targetValue) then
          ProgressTextRoundTrip(currentProgress, achievement.targetValue);
          text
        else
          text
    }

    /** "In Progress" while locked, "Completed" once unlocked, "Claimed" once the reward is taken. */
    function GetStatusText(): (text: string)
      reads this
      ensures text == StatusText(State())
    {
      if isUnlocked then (if isRewardClaimed then "Claimed" else "Completed") else "In Progress"
    }
  }

  /** A record that is unlocked, or has no definition, ignores progress. */
  lemma FrozenWhenUnlockedOrDetached(st: AchState, target: Option<int>, x: int, now: BinaryDate)
    requires st.isUnlocked || target.None?
    ensures AddProgressSpec(st, target, x, now) == st
    ensures SetProgressSpec(st, target, x, now) == st
  {
  }

  /**
   * On a locked record with a non-negative target, progress stays in
   * `[0, target]`, the record unlocks exactly when it reaches the target,
   * and then carries the unlock time `now`.
   */
  lemma ProgressBounds(st: AchState, target: int, x: int, now: BinaryDate)
    requires !st.isUnlocked && 0 <= target
    ensures var a := AddProgressSpec(st, Some(target), x, now);
      0 <= a.currentProgress <= target && (a.isUnlocked <==> a.currentProgress == target)
      && (a.isUnlocked ==> a.unlockedDate == now) && (!a.isUnlocked ==> a.unlockedDate == st.unlockedDate)
    ensures var b := SetProgressSpec(st, Some(target), x, now);
      0 <= b.currentProgress <= target && (b.isUnlocked <==> b.currentProgress == target)
      && (b.isUnlocked ==> b.unlockedDate == now) && (!b.isUnlocked ==> b.unlockedDate == st.unlockedDate)
  {
  }

  /** Adding a non-negative amount to a record within its target never lowers its progress. */
  lemma AddProgressMonotone(st: AchState, target: Option<int>, x: int, now: BinaryDate)
    requires 0 <= x
    requires target.Some? ==> 0 <= st.currentProgress <= target.value
    ensures AddProgressSpec(st, target, x, now).currentProgress >= st.currentProgress
  {
  }

  /**
   * The unlock happens at most once: once unlocked, no operation relocks the
   * record or moves its unlock date, and unlocking again changes nothing.
   */
  lemma UnlockOnce(st: AchState, target: Option<int>, x: int, now: BinaryDate, attached: bool)
    requires st.isUnlocked
    ensures UnlockSpec(st, now) == st
    ensures AddProgressSpec(st, target, x, now) == st && SetProgressSpec(st, target, x, now) == st
    ensures ClaimSpec(st, attached).isUnlocked && ClaimSpec(st, attached).unlockedDate == st.unlockedDate
  {
  }

  /**
   * A claim changes the record exactly when it is unlocked, unclaimed and
   * attached; a second claim changes nothing, and gold rises by the reward,
   * only when positive.
   */
  lemma ClaimPaysOnce(st: AchState, attached: bool, s: Prefs.Store, reward: int)
    ensures ClaimSpec(ClaimSpec(st, attached), attached) == ClaimSpec(st, attached)
    ensures ClaimSpec(st, attached) != st <==> st.isUnlocked && !st.isRewardClaimed && attached
    ensures GameData.Gold(GameData.PayGold(s, reward)) == GameData.Gold(s) + (if reward > 0 then reward else 0)
  {
  }

  /**
   * The status follows the record's life: "In Progress" exactly while
   * locked, "Claimed" exactly when claimed after unlocking, and a successful
   * claim turns "Completed" into "Claimed".
   */
  lemma StatusLifecycle(st: AchState, attached: bool)
    ensures StatusText(st) == "In Progress" <==> !st.isUnlocked
    ensures StatusText(st) == "Completed" <==> st.isUnlocked && !st.isRewardClaimed
    ensures StatusText(st) == "Claimed" <==> st.isUnlocked && st.isRewardClaimed
    ensures StatusText(st) == "Completed" && attached ==> StatusText(ClaimSpec(st, attached)) == "Claimed"
  {
  }

  /** Saving a record and loading the entry back restores the same state and id. */
  lemma EntryRoundTrip(id: string, st: AchState)
    ensures EntryOf(id, st).achievementId == id
    ensures StateOf(EntryOf(id, st)) == st
  {
  }
}

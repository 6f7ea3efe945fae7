/**
 * `DailyQuestSaveData` and `DailyQuestSaveEntry`: the saved form of the daily
 * quest list, with dates as "yyyy-MM-dd" text.
 */
module DailyQuestSave {
  import opened Wrappers
  import opened Dates

  datatype DailyQuestSaveEntry = DailyQuestSaveEntry(
    questName: string,
    currentProgress: int,
    isCompleted: bool,
    isRewardClaimed: bool,
    assignedDate: string)

  datatype DailyQuestSaveData = DailyQuestSaveData(
    lastLoginDate: string,
    activeQuests: seq<DailyQuestSaveEntry>)

  /** `new DailyQuestSaveData()`: today's date as text and no entries. */
  function NewSaveData(now: Instant): (d: DailyQuestSaveData)
    ensures d.activeQuests == []
  {
    DailyQuestSaveData(FormatDate(now.date), [])
  }

  /** A fresh save's date text reads back as today. */
  lemma NewSaveDataDated(now: Instant)
    ensures ParseDate(NewSaveData(now).lastLoginDate) == Some(now.date)
  {
    ParseFormatDate(now.date);
  }

  /**
   * `new DailyQuestSaveEntry(name, progress, completed, claimed, assignedOn)`:
   * copies the fields and writes the assigned day as text.
   */
  function NewEntry(name: string, progress: int, completed: bool, claimed: bool, assignedOn: Instant): (e: DailyQuestSaveEntry)
    ensures e.questName == name && e.currentProgress == progress
    ensures e.isCompleted == completed && e.isRewardClaimed == claimed
  {
    DailyQuestSaveEntry(name, progress, completed, claimed, FormatDate(assignedOn.date))
  }

  /** `GetAssignedDate` on a new entry recovers its assigned day at midnight, whatever the fallback. */
  lemma NewEntryAssignedDate(name: string, progress: int, completed: bool, claimed: bool, assignedOn: Instant, now: Instant)
    ensures GetAssignedDate(NewEntry(name, progress, completed, claimed, assignedOn), now) == assignedOn.Midnight()
  {
    ParseFormatDate(assignedOn.date);
  }

  /** `entry.GetAssignedDate()`: the parsed day at midnight, or `now` when the text is not a date. */
  function GetAssignedDate(e: DailyQuestSaveEntry, now: Instant): (t: Instant)
    ensures ParseDate(e.assignedDate).Some? ==> t == DateTime(ParseDate(e.assignedDate).value, 0)
    ensures ParseDate(e.assignedDate).None? ==> t == now
  {
    match ParseDate(e.assignedDate)
    case Some(d) => DateTime(d, 0)
    case None => now
  }
}

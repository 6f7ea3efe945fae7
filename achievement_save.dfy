/**
 * The saved form of one achievement record: the unlock time travels as the
 * decimal text of `DateTime.ToBinary()` and is read back with `long.TryParse`.
 */
module AchievementSave {
  import opened Wrappers
  import Text

  /**
   * A `DateTime` held as its 64-bit `ToBinary()` value, which
   * `DateTime.FromBinary` turns back into a `DateTime`: the same one for a
   * UTC or unspecified-kind value, and for a local-kind value the same
   * instant converted to the time zone in force when it is read.
   */
  type BinaryDate = i: int | Text.InLongRange(i)

  /** `DateTime.MinValue.ToBinary()`. */
  const MinValueBinary: BinaryDate := 0

  datatype AchievementSaveEntry = AchievementSaveEntry(
    achievementId: string,
    currentProgress: int,
    isUnlocked: bool,
    isRewardClaimed: bool,
    unlockedDate: string)

  /** `AchievementSaveData`: the list the achievement manager writes and reads. */
  datatype AchievementSaveData = AchievementSaveData(achievements: seq<AchievementSaveEntry>)

  /**
   * `new AchievementSaveEntry(id, progress, unlocked, claimed, unlockDate)`:
   * copies the fields and stores the date as decimal text, which
   * `GetUnlockedDate` turns back into the same date.
   */
  function NewEntry(id: string, progress: int, unlocked: bool, claimed: bool, unlockDate: BinaryDate): (e: AchievementSaveEntry)
    ensures e.achievementId == id && e.currentProgress == progress
    ensures e.isUnlocked == unlocked && e.isRewardClaimed == claimed
    ensures GetUnlockedDate(e) == unlockDate
  {
    Text.ParseLongOfIntToString(unlockDate);
    AchievementSaveEntry(id, progress, unlocked, claimed, Text.IntToString(unlockDate))
  }

  /** `entry.GetUnlockedDate()`: the parsed 64-bit value, or `MinValue` when the text is not a long. */
  function GetUnlockedDate(e: AchievementSaveEntry): (d: BinaryDate)
    ensures Text.ParseLong(e.unlockedDate) == Some(d) || (Text.ParseLong(e.unlockedDate).None? && d == MinValueBinary)
  {
    match Text.ParseLong(e.unlockedDate)
    case Some(b) => b
    case None => MinValueBinary
  }

  /** A date text with no decimal digit in it (empty, `"never"`, blank, ...) gives `MinValue`, whatever else the entry holds. */
  lemma UnparsableDateIsMinValue(e: AchievementSaveEntry)
    requires forall k :: 0 <= k < |e.unlockedDate| ==> !Text.IsDigit(e.unlockedDate[k])
    ensures GetUnlockedDate(e) == MinValueBinary
  {
    Text.NoDigitNoNumber(e.unlockedDate);
  }

  /** White space around the saved number is read past, as `long.TryParse` does. */
  lemma PaddedDateReadsBack(id: string, progress: int, unlocked: bool, claimed: bool, unlockDate: BinaryDate)
    ensures GetUnlockedDate(NewEntry(id, progress, unlocked, claimed, unlockDate).(unlockedDate :=
      " " + Text.IntToString(unlockDate) + "\n")) == unlockDate
  {
    var t := Text.IntToString(unlockDate);
    Text.ParseLongOfIntToString(unlockDate);
    assert Text.IsDigit(t[|t| - 1]) by {
      var n: int := unlockDate;
      if n < 0 {
        assert t[|t| - 1] == Text.NatToString(-n)[|t| - 2];
      }
    }
    Text.PaddedNumberParses(" ", t, "\n");
  }
}

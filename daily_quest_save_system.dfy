/**
 * `DailyQuestSaveSystem`: keeps the daily quest save under one `PlayerPrefs`
 * key and falls back to a fresh save whenever nothing usable is stored.
 */
module DailyQuestSaveSystem {
  import opened Wrappers
  import opened Dates
  import opened DailyQuestSave
  import opened Prefs

  const SaveKey := "DailyQuestData"

  /**
   * What `LoadDailyQuestData` returns for the store `s` at `now`: the stored
   * save, or a fresh one when the key is missing, decodes to null, or its
   * decoding throws.
   */
  function LoadSpec(s: Store, now: Instant): DailyQuestSaveData {
    if s.HasKey(SaveKey) then
      match s.GetDocument(SaveKey)
      case DailyQuestJson(d) => d
      case _ => NewSaveData(now)
    else NewSaveData(now)
  }

  /** Writes the save under its key; nothing else changes. */
  method SaveDailyQuestData(prefs: PlayerPrefs, data: DailyQuestSaveData)
    modifies prefs
    ensures prefs.Contents() == old(prefs.Contents()).SetDocument(SaveKey, DailyQuestJson(data))
  {
    prefs.SetDocument(SaveKey, DailyQuestJson(data));
  }

  /** Reads the save back, or a fresh one dated `now` when there is none to read. */
  method LoadDailyQuestData(prefs: PlayerPrefs, now: Instant) returns (data: DailyQuestSaveData)
    ensures !prefs.Contents().HasKey(SaveKey) ==> data == NewSaveData(now)
    ensures prefs.Contents().HasKey(SaveKey) && prefs.Contents().GetDocument(SaveKey).DailyQuestJson? ==>
      data == prefs.Contents().GetDocument(SaveKey).daily
    ensures prefs.Contents().HasKey(SaveKey) && !prefs.Contents().GetDocument(SaveKey).DailyQuestJson? ==>
      data == NewSaveData(now)
  {
    if prefs.Contents().HasKey(SaveKey) {
      var doc := prefs.Contents().GetDocument(SaveKey);
      if doc.DailyQuestJson? {
        return doc.daily;
      }
    }
    data := NewSaveData(now);
  }

  /** Removes the save's key. */
  method ClearSaveData(prefs: PlayerPrefs)
    modifies prefs
    ensures prefs.Contents() == old(prefs.Contents()).DeleteKeys({SaveKey})
  {
    prefs.DeleteKey(SaveKey);
  }

  /** Whether anything is stored under the save's key. */
  function HasSaveData(s: Store): (r: bool)
    ensures r <==> SaveKey in s.ints || SaveKey in s.strs || SaveKey in s.docs
  {
    s.HasKey(SaveKey)
  }

  /** A saved value loads back unchanged, and saving leaves every other key as it was. */
  lemma SaveLoadRoundTrip(s: Store, data: DailyQuestSaveData, now: Instant, other: string)
    ensures LoadSpec(s.SetDocument(SaveKey, DailyQuestJson(data)), now) == data
    ensures HasSaveData(s.SetDocument(SaveKey, DailyQuestJson(data)))
    ensures other != SaveKey ==> s.SetDocument(SaveKey, DailyQuestJson(data)).GetInt(other, 0) == s.GetInt(other, 0)
    ensures other != SaveKey ==> s.SetDocument(SaveKey, DailyQuestJson(data)).GetString(other, "") == s.GetString(other, "")
  {
  }

  /** After a clear there is no save, and a load gives a fresh save with no entries dated `now`. */
  lemma ClearForgets(s: Store, now: Instant)
    ensures !HasSaveData(s.DeleteKeys({SaveKey}))
    ensures LoadSpec(s.DeleteKeys({SaveKey}), now) == NewSaveData(now)
    ensures LoadSpec(s.DeleteKeys({SaveKey}), now).activeQuests == []
    ensures ParseDate(LoadSpec(s.DeleteKeys({SaveKey}), now).lastLoginDate) == Some(now.date)
  {
    NewSaveDataDated(now);
  }

  /** Text that is empty, decodes to null or fails to decode loads as a fresh save. */
  lemma UnusableSaveFallsBack(s: Store, doc: Document, now: Instant)
    requires doc == EmptyText || doc == NullJson || doc == Malformed
    ensures LoadSpec(s.SetDocument(SaveKey, doc), now) == NewSaveData(now)
  {
  }
}

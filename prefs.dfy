/**
 * Unity's `PlayerPrefs`: one persistent key space of integer and string
 * values. The two JSON documents the game stores as strings are kept here in
 * decoded form, as a `Document`.
 */
module Prefs {
  import AchievementSave
  import DailyQuestSave

  /** What `JsonUtility.FromJson` makes of a stored JSON string. */
  datatype Document =
    | EmptyText                                    // the empty string
    | NullJson                                     // text that decodes to null
    | Malformed                                    // text whose decoding throws
    | DailyQuestJson(daily: DailyQuestSave.DailyQuestSaveData)
    | AchievementJson(saved: AchievementSave.AchievementSaveData)

  /**
   * The contents of the key space. Writing a key of one kind drops any value
   * of another kind under the same key, as `PlayerPrefs` keeps one value per key.
   */
  datatype Store = Store(ints: map<string, int>, strs: map<string, string>, docs: map<string, Document>) {

    function GetInt(key: string, default: int): int {
      if key in ints then ints[key] else default
    }

    /** A key that holds an integer or a document reads as the default. */
    function GetString(key: string, default: string): string {
      if key in strs then strs[key] else default
    }

    /** The stored JSON document; a missing key reads as the empty string. */
    function GetDocument(key: string): Document {
      if key in docs then docs[key] else EmptyText
    }

    predicate HasKey(key: string) {
      key in ints || key in strs || key in docs
    }

    function SetInt(key: string, value: int): Store {
      Store(ints[key := value], strs - {key}, docs - {key})
    }

    function SetString(key: string, value: string): Store {
      Store(ints - {key}, strs[key := value], docs - {key})
    }

    function SetDocument(key: string, doc: Document): Store {
      Store(ints - {key}, strs - {key}, docs[key := doc])
    }

    function DeleteKeys(keys: set<string>): Store {
      Store(ints - keys, strs - keys, docs - keys)
    }
  }

  const EmptyStore: Store := Store(map[], map[], map[])

  class PlayerPrefs {
    var ints: map<string, int>
    var strs: map<string, string>
    var docs: map<string, Document>

    function Contents(): Store
      reads this
    {
      Store(ints, strs, docs)
    }

    constructor()
      ensures Contents() == EmptyStore
    {
      ints := map[];
      strs := map[];
      docs := map[];
    }

    method SetInt(key: string, value: int)
      modifies this
      ensures Contents() == old(Contents()).SetInt(key, value)
    {
      ints := ints[key := value];
      strs := strs - {key};
      docs := docs - {key};
    }

    method SetString(key: string, value: string)
      modifies this
      ensures Contents() == old(Contents()).SetString(key, value)
    {
      ints := ints - {key};
      strs := strs[key := value];
      docs := docs - {key};
    }

    /** `SetString(key, JsonUtility.ToJson(doc))`. */
    method SetDocument(key: string, doc: Document)
      modifies this
      ensures Contents() == old(Contents()).SetDocument(key, doc)
    {
      ints := ints - {key};
      strs := strs - {key};
      docs := docs[key := doc];
    }

    method DeleteKey(key: string)
      modifies this
      ensures Contents() == old(Contents()).DeleteKeys({key})
      ensures !Contents().HasKey(key)
    {
      ints := ints - {key};
      strs := strs - {key};
      docs := docs - {key};
    }

    method DeleteAll()
      modifies this
      ensures Contents() == EmptyStore
    {
      ints := map[];
      strs := map[];
      docs := map[];
    }
  }

  /** After a write, the key reads back the value written; every other key reads as before. */
  lemma SetIntGetInt(s: Store, key: string, value: int, other: string, default: int)
    ensures s.SetInt(key, value).GetInt(key, default) == value
    ensures other != key ==> s.SetInt(key, value).GetInt(other, default) == s.GetInt(other, default)
    ensures other != key ==> s.SetInt(key, value).GetString(other, "") == s.GetString(other, "")
    ensures s.SetInt(key, value).GetString(key, "") == ""
  {
  }
}

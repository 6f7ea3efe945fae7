/**
 * `GameData`: the persistent ledger kept in `PlayerPrefs` — gold, lifetime and
 * daily food counters, quest totals, skins — and its daily reset.
 */
module GameData {
  import opened Enums
  import opened Prefs
  import opened Dates

  const GoldKey := "GoldAmount"
  const TotalFoodKey := "TotalFoodCollected"
  const TotalQuestsKey := "TotalQuestsCompleted"
  const AchievementDataKey := "AchievementData"
  const NormalTodayKey := "NormalQuestsCompletedToday"
  const LastResetKey := "LastDailyReset"
  const CurrentSkinKey := "CurrentSkin"

  /** "" for a null specific type, otherwise "_" and the boxed value's name. */
  function Suffix(specific: Boxed): string {
    if specific.Null? then "" else "_" + specific.ToString()
  }

  /** `$"Food_{foodType}"`, followed by `$"_{specificType}"` when one is given. */
  function FoodKey(cat: FoodType, specific: Boxed): string {
    "Food_" + cat.Name() + Suffix(specific)
  }

  /** `$"DailyFood_{foodType}"`, followed by `$"_{specificType}"` when one is given. */
  function DailyFoodKey(cat: FoodType, specific: Boxed): string {
    "DailyFood_" + cat.Name() + Suffix(specific)
  }

  /** `$"Skin_{skin}"`. */
  function SkinKey(skin: int): string {
    "Skin_" + SkinName(skin)
  }

  predicate IsFoodKey(k: string) {
    |k| >= 5 && k[..5] == "Food_"
  }

  predicate IsDailyFoodKey(k: string) {
    |k| >= 10 && k[..10] == "DailyFood_"
  }

  /** Every daily key is "Daily" followed by the lifetime key of the same food. */
  lemma KeyShapes(cat: FoodType, specific: Boxed)
    ensures IsFoodKey(FoodKey(cat, specific))
    ensures IsDailyFoodKey(DailyFoodKey(cat, specific))
    ensures DailyFoodKey(cat, specific)[5..] == FoodKey(cat, specific)
  {
    PrefixedKeyShapes(cat.Name(), Suffix(specific));
  }

  /** The shapes of `KeyShapes` for any food name and suffix. */
  lemma PrefixedKeyShapes(name: string, suffix: string)
    ensures IsFoodKey("Food_" + name + suffix)
    ensures IsDailyFoodKey("DailyFood_" + name + suffix)
    ensures ("DailyFood_" + name + suffix)[5..] == "Food_" + name + suffix
  {
    var f := "Food_" + name + suffix;
    var d := "DailyFood_" + name + suffix;
    assert f[..5] == "Food_";
    assert d[..10] == "DailyFood_";
    assert |d[5..]| == |f|;
    forall k | 0 <= k < |f|
      ensures d[5..][k] == f[k]
    {
      if k < 5 {
        assert d[5 + k] == "DailyFood_"[5 + k];
      } else if k < 5 + |name| {
        assert d[5 + k] == name[k - 5];
      } else {
        assert d[5 + k] == suffix[k - 5 - |name|];
      }
    }
  }

  /** Lifetime keys start with 'F', daily keys with 'D'. */
  lemma FirstChar(k: string)
    ensures IsFoodKey(k) ==> k[0] == 'F'
    ensures IsDailyFoodKey(k) ==> k[0] == 'D'
  {
    if IsFoodKey(k) {
      assert k[..5][0] == k[0];
    }
    if IsDailyFoodKey(k) {
      assert k[..10][0] == k[0];
    }
  }

  /** A key whose first character is neither 'F' nor 'D' is neither a lifetime nor a daily key. */
  lemma NotFoodKeyByFirstChar(k: string)
    requires |k| > 0 && k[0] != 'F' && k[0] != 'D'
    ensures !IsFoodKey(k) && !IsDailyFoodKey(k)
  {
    FirstChar(k);
  }

  lemma SkinKeyShape(skin: int)
    ensures |SkinKey(skin)| >= 5 && SkinKey(skin)[..5] == "Skin_"
  {
  }

  // ---------------------------------------------------------------------
  // Getters

  function Gold(s: Store): int {
    s.GetInt(GoldKey, 0)
  }

  function TotalFoodCollected(s: Store): int {
    s.GetInt(TotalFoodKey, 0)
  }

  function TotalQuestsCompleted(s: Store): int {
    s.GetInt(TotalQuestsKey, 0)
  }

  function GetNormalQuestsCompletedToday(s: Store): int {
    s.GetInt(NormalTodayKey, 0)
  }

  function GetFoodCollected(s: Store, cat: FoodType, specific: Boxed): int {
    s.GetInt(FoodKey(cat, specific), 0)
  }

  function GetDailyFoodCollected(s: Store, cat: FoodType, specific: Boxed): int {
    s.GetInt(DailyFoodKey(cat, specific), 0)
  }

  /** `(ESkin)GetInt("CurrentSkin", (int)ESkin.Skin0)`. */
  function CurrentSkin(s: Store): int {
    s.GetInt(CurrentSkinKey, FirstSkinCode)
  }

  function IsSkinUnlocked(s: Store, skin: int): bool {
    s.GetInt(SkinKey(skin), 0) == 1
  }

  /** `GameData.AchievementData`, decoded. */
  function AchievementData(s: Store): Document {
    s.GetDocument(AchievementDataKey)
  }

  // ---------------------------------------------------------------------
  // Writes, as functions of the store

  /** Adds 1 to the total, then to the lifetime key `fk`, then to the daily key `dk`. */
  function CountCollection(s: Store, fk: string, dk: string): Store {
    CountFood(s.SetInt(TotalFoodKey, TotalFoodCollected(s) + 1), fk, dk)
  }

  /** Adds 1 to the lifetime key `fk`, then to the daily key `dk`. */
  function CountFood(s: Store, fk: string, dk: string): Store {
    var s1 := s.SetInt(fk, s.GetInt(fk, 0) + 1);
    s1.SetInt(dk, s1.GetInt(dk, 0) + 1)
  }

  function AddFoodCollectedSpec(s: Store, cat: FoodType, specific: Boxed): Store {
    CountCollection(s, FoodKey(cat, specific), DailyFoodKey(cat, specific))
  }

  function AddNormalQuestCompletedSpec(s: Store): Store {
    var s1 := s.SetInt(NormalTodayKey, GetNormalQuestsCompletedToday(s) + 1);
    s1.SetInt(TotalQuestsKey, TotalQuestsCompleted(s1) + 1)
  }

  /** The store after a reward claim: `Gold += reward`, which only happens when the reward is positive. */
  function PayGold(s: Store, reward: int): Store {
    if reward > 0 then s.SetInt(GoldKey, Gold(s) + reward) else s
  }

  /** The daily keys of the given codes of one category. */
  function SpecificDailyKeys(cat: FoodType, codes: seq<int>): set<string> {
    if codes == [] then {}
    else SpecificDailyKeys(cat, codes[..|codes| - 1]) + {DailyFoodKey(cat, Box(cat, codes[|codes| - 1]))}
  }

  /** The general daily key of a category and the daily key of each of its declared items. */
  function CategoryDailyKeys(cat: FoodType): set<string> {
    {DailyFoodKey(cat, Null)} + SpecificDailyKeys(cat, ItemCodes(cat))
  }

  function DailyKeysOf(cats: seq<FoodType>): set<string> {
    if cats == [] then {}
    else DailyKeysOf(cats[..|cats| - 1]) + CategoryDailyKeys(cats[|cats| - 1])
  }

  /** Every key `ResetDailyProgress` deletes. */
  function ResetKeys(): set<string> {
    {NormalTodayKey} + DailyKeysOf(FoodTypes)
  }

  function ResetDailyProgressSpec(s: Store): Store {
    s.DeleteKeys(ResetKeys())
  }

  /** `CheckAndResetDailyProgress` on the day whose "yyyy-MM-dd" text is `today`. */
  function CheckAndResetSpec(s: Store, today: string): Store {
    if s.GetString(LastResetKey, "") != today then ResetDailyProgressSpec(s).SetString(LastResetKey, today)
    else s
  }

  // ---------------------------------------------------------------------
  // The operations on the shared store

  method SetGold(prefs: PlayerPrefs, value: int)
    modifies prefs
    ensures prefs.Contents() == old(prefs.Contents()).SetInt(GoldKey, value)
  {
    prefs.SetInt(GoldKey, value);
  }

  /** Builds a counter key: the prefix and category name, then the item's suffix. */
  method CounterKey(prefix: string, cat: FoodType, specific: Boxed) returns (key: string)
    ensures key == prefix + cat.Name() + Suffix(specific)
  {
    key := prefix + cat.Name();
    if !specific.Null? {
      key := key + "_" + specific.ToString();
    }
  }

  /** Reads an integer key (0 when absent) and writes it back plus one. */
  method Increment(prefs: PlayerPrefs, key: string)
    modifies prefs
    ensures prefs.Contents() == old(prefs.Contents()).SetInt(key, old(prefs.Contents()).GetInt(key, 0) + 1)
  {
    var current := prefs.Contents().GetInt(key, 0);
    prefs.SetInt(key, current + 1);
  }

  method AddFoodCollected(prefs: PlayerPrefs, cat: FoodType, specific: Boxed)
    modifies prefs
    ensures prefs.Contents() == AddFoodCollectedSpec(old(prefs.Contents()), cat, specific)
  {
    prefs.SetInt(TotalFoodKey, TotalFoodCollected(prefs.Contents()) + 1);
    ghost var afterTotal := prefs.Contents();
    var key := CounterKey("Food_", cat, specific);
    Increment(prefs, key);
    var dailyKey := CounterKey("DailyFood_", cat, specific);
    Increment(prefs, dailyKey);
    assert prefs.Contents() == CountFood(afterTotal, key, dailyKey);
  }


  /**
   * `AddNormalQuestCompleted`: today's count and the lifetime total each
   * rise by one. The `OnQuestCompleted` notification raised between the two
   * writes is left to the caller.
   */
  method AddNormalQuestCompleted(prefs: PlayerPrefs)
    modifies prefs
    ensures prefs.Contents() == AddNormalQuestCompletedSpec(old(prefs.Contents()))
  {
    var current := prefs.Contents().GetInt(NormalTodayKey, 0);
    prefs.SetInt(NormalTodayKey, current + 1);
    prefs.SetInt(TotalQuestsKey, TotalQuestsCompleted(prefs.Contents()) + 1);
  }

  lemma DeleteKeysTwice(s: Store, a: set<string>, b: set<string>)
    ensures s.DeleteKeys(a).DeleteKeys(b) == s.DeleteKeys(a + b)
  {
  }

  lemma SpecificDailyKeysStep(cat: FoodType, codes: seq<int>, j: int)
    requires 0 <= j < |codes|
    ensures SpecificDailyKeys(cat, codes[..j + 1]) == SpecificDailyKeys(cat, codes[..j]) + {DailyFoodKey(cat, Box(cat, codes[j]))}
  {
    assert codes[..j + 1][..j] == codes[..j];
  }

  /** The body of the `switch` in `ClearDailyFoodData`: one category's general and specific daily keys. */
  method ClearCategoryDailyFoodData(prefs: PlayerPrefs, cat: FoodType)
    modifies prefs
    ensures prefs.Contents() == old(prefs.Contents()).DeleteKeys(CategoryDailyKeys(cat))
  {
    ghost var start := prefs.Contents();
    prefs.DeleteKey(DailyFoodKey(cat, Null));
    ghost var deleted: set<string> := {DailyFoodKey(cat, Null)};
    var codes := ItemCodes(cat);
    var j := 0;
    while j < |codes|
      invariant 0 <= j <= |codes|
      invariant deleted == {DailyFoodKey(cat, Null)} + SpecificDailyKeys(cat, codes[..j])
      invariant prefs.Contents() == start.DeleteKeys(deleted)
    {
      var key := DailyFoodKey(cat, Box(cat, codes[j]));
      prefs.DeleteKey(key);
      DeleteKeysTwice(start, deleted, {key});
      SpecificDailyKeysStep(cat, codes, j);
      deleted := deleted + {key};
      j := j + 1;
    }
    assert codes[..j] == codes;
  }

  method ClearDailyFoodData(prefs: PlayerPrefs)
    modifies prefs
    ensures prefs.Contents() == old(prefs.Contents()).DeleteKeys(DailyKeysOf(FoodTypes))
  {
    var i := 0;
    while i < |FoodTypes|
      invariant 0 <= i <= |FoodTypes|
      invariant prefs.Contents() == old(prefs.Contents()).DeleteKeys(DailyKeysOf(FoodTypes[..i]))
    {
      ClearCategoryDailyFoodData(prefs, FoodTypes[i]);
      assert FoodTypes[..i + 1][..i] == FoodTypes[..i];
      DeleteKeysTwice(old(prefs.Contents()), DailyKeysOf(FoodTypes[..i]), CategoryDailyKeys(FoodTypes[i]));
      i := i + 1;
    }
    assert FoodTypes[..i] == FoodTypes;
  }

  method ResetDailyProgress(prefs: PlayerPrefs)
    modifies prefs
    ensures prefs.Contents() == ResetDailyProgressSpec(old(prefs.Contents()))
  {
    prefs.DeleteKey(NormalTodayKey);
    ClearDailyFoodData(prefs);
    DeleteKeysTwice(old(prefs.Contents()), {NormalTodayKey}, DailyKeysOf(FoodTypes));
  }

  method CheckAndResetDailyProgress(prefs: PlayerPrefs, now: Instant)
    modifies prefs
    ensures prefs.Contents() == CheckAndResetSpec(old(prefs.Contents()), FormatDate(now.date))
  {
    var lastResetDate := prefs.Contents().GetString(LastResetKey, "");
    var today := FormatDate(now.date);
    if lastResetDate != today {
      ResetDailyProgress(prefs);
      prefs.SetString(LastResetKey, today);
    }
  }

  method SetCurrentSkin(prefs: PlayerPrefs, skin: int)
    modifies prefs
    ensures prefs.Contents() == old(prefs.Contents()).SetInt(CurrentSkinKey, skin)
  {
    prefs.SetInt(CurrentSkinKey, skin);
  }

  method UnlockSkin(prefs: PlayerPrefs, skin: int)
    modifies prefs
    ensures prefs.Contents() == old(prefs.Contents()).SetInt(SkinKey(skin), 1)
  {
    prefs.SetInt(SkinKey(skin), 1);
  }

  method LockSkin(prefs: PlayerPrefs, skin: int)
    modifies prefs
    ensures prefs.Contents() == old(prefs.Contents()).SetInt(SkinKey(skin), 0)
  {
    prefs.SetInt(SkinKey(skin), 0);
  }

  method SetAchievementData(prefs: PlayerPrefs, doc: Document)
    modifies prefs
    ensures prefs.Contents() == old(prefs.Contents()).SetDocument(AchievementDataKey, doc)
  {
    prefs.SetDocument(AchievementDataKey, doc);
  }

  method ClearAllData(prefs: PlayerPrefs)
    modifies prefs
    ensures prefs.Contents() == EmptyStore
  {
    prefs.DeleteAll();
  }

  // ---------------------------------------------------------------------
  // Properties

  /**
   * One collection adds exactly 1 to the total, to the food's lifetime counter
   * and to its daily counter, and changes no other integer.
   */
  lemma AddFoodCollectedCounts(s: Store, cat: FoodType, specific: Boxed, other: string)
    ensures var t := AddFoodCollectedSpec(s, cat, specific);
      && TotalFoodCollected(t) == TotalFoodCollected(s) + 1
      && GetFoodCollected(t, cat, specific) == GetFoodCollected(s, cat, specific) + 1
      && GetDailyFoodCollected(t, cat, specific) == GetDailyFoodCollected(s, cat, specific) + 1
      && (other !in {TotalFoodKey, FoodKey(cat, specific), DailyFoodKey(cat, specific)} ==>
            t.GetInt(other, 0) == s.GetInt(other, 0) && t.GetString(other, "") == s.GetString(other, ""))
  {
    KeyShapes(cat, specific);
    var fk, dk := FoodKey(cat, specific), DailyFoodKey(cat, specific);
    FirstChar(fk);
    FirstChar(dk);
    assert fk != TotalFoodKey && dk != TotalFoodKey && fk != dk by {
      assert TotalFoodKey[0] == 'T';
    }
  }

  /**
   * The ledger invariant: lifetime counters are never negative, and every
   * daily counter is at most the lifetime counter of the same food (its key
   * without the "Daily" prefix).
   */
  ghost predicate DailyWithinLifetime(s: Store) {
    (forall k :: k in s.ints && IsFoodKey(k) ==> s.ints[k] >= 0) &&
    (forall k :: k in s.ints && IsDailyFoodKey(k) ==> s.ints[k] <= s.GetInt(k[5..], 0))
  }

  /** The lifetime key a daily key is paired with is a lifetime key. */
  lemma LifetimeOfDaily(k: string)
    requires IsDailyFoodKey(k)
    ensures IsFoodKey(k[5..]) && k == "Daily" + k[5..]
  {
    assert k[5..][..5] == k[5..10];
    assert k == k[..5] + k[5..];
    assert k[..5] == k[..10][..5];
  }

  /** Removing keys none of which is a lifetime key keeps the invariant. */
  lemma DeleteKeepsDailyWithinLifetime(s: Store, keys: set<string>)
    requires DailyWithinLifetime(s)
    requires forall k :: k in keys ==> !IsFoodKey(k)
    ensures DailyWithinLifetime(s.DeleteKeys(keys))
  {
    var t := s.DeleteKeys(keys);
    forall k | k in t.ints && IsDailyFoodKey(k)
      ensures t.ints[k] <= t.GetInt(k[5..], 0)
    {
      LifetimeOfDaily(k);
    }
  }

  /** Writing a key that is neither a lifetime nor a daily key keeps the invariant. */
  lemma SetIntKeepsDailyWithinLifetime(s: Store, key: string, value: int)
    requires DailyWithinLifetime(s)
    requires !IsFoodKey(key) && !IsDailyFoodKey(key)
    ensures DailyWithinLifetime(s.SetInt(key, value))
  {
    var t := s.SetInt(key, value);
    forall k | k in t.ints && IsDailyFoodKey(k)
      ensures t.ints[k] <= t.GetInt(k[5..], 0)
    {
      LifetimeOfDaily(k);
    }
  }

  /** Raising a lifetime counter keeps the invariant. */
  lemma RaiseLifetimeKeepsDailyWithinLifetime(s: Store, key: string, value: int)
    requires DailyWithinLifetime(s)
    requires IsFoodKey(key) && value >= s.GetInt(key, 0) && value >= 0
    ensures DailyWithinLifetime(s.SetInt(key, value))
  {
    var t := s.SetInt(key, value);
    FirstChar(key);
    forall k | k in t.ints && IsDailyFoodKey(k)
      ensures t.ints[k] <= t.GetInt(k[5..], 0)
    {
      FirstChar(k);
      LifetimeOfDaily(k);
    }
  }

  /** Adding 1 to a daily counter that is below its lifetime counter keeps the invariant. */
  lemma RaiseDailyKeepsDailyWithinLifetime(s: Store, key: string)
    requires DailyWithinLifetime(s)
    requires IsDailyFoodKey(key) && s.GetInt(key, 0) + 1 <= s.GetInt(key[5..], 0)
    ensures DailyWithinLifetime(s.SetInt(key, s.GetInt(key, 0) + 1))
  {
    var t := s.SetInt(key, s.GetInt(key, 0) + 1);
    FirstChar(key);
    LifetimeOfDaily(key);
    forall k | k in t.ints && IsDailyFoodKey(k)
      ensures t.ints[k] <= t.GetInt(k[5..], 0)
    {
      LifetimeOfDaily(k);
      FirstChar(k[5..]);
      if k != key {
        assert k[5..] != key[5..];
      }
    }
  }

  /** Adding 1 to the total, to a lifetime key and then to its daily key keeps the invariant. */
  lemma CountCollectionKeepsDailyWithinLifetime(s: Store, fk: string, dk: string)
    requires DailyWithinLifetime(s)
    requires IsFoodKey(fk) && IsDailyFoodKey(dk) && dk[5..] == fk
    ensures DailyWithinLifetime(CountCollection(s, fk, dk))
  {
    NotFoodKeyByFirstChar(TotalFoodKey);
    SetIntKeepsDailyWithinLifetime(s, TotalFoodKey, TotalFoodCollected(s) + 1);
    RaiseCollectionKeepsDailyWithinLifetime(s.SetInt(TotalFoodKey, TotalFoodCollected(s) + 1), fk, dk);
  }

  lemma RaiseCollectionKeepsDailyWithinLifetime(s1: Store, fk: string, dk: string)
    requires DailyWithinLifetime(s1)
    requires IsFoodKey(fk) && IsDailyFoodKey(dk) && dk[5..] == fk
    ensures DailyWithinLifetime(CountFood(s1, fk, dk))
  {
    FirstChar(fk);
    FirstChar(dk);
    var s2 := s1.SetInt(fk, s1.GetInt(fk, 0) + 1);
    RaiseLifetimeKeepsDailyWithinLifetime(s1, fk, s1.GetInt(fk, 0) + 1);
    assert s2.GetInt(dk, 0) == s1.GetInt(dk, 0) <= s1.GetInt(fk, 0);
    RaiseDailyKeepsDailyWithinLifetime(s2, dk);
  }

  lemma AddFoodCollectedKeepsDailyWithinLifetime(s: Store, cat: FoodType, specific: Boxed)
    requires DailyWithinLifetime(s)
    ensures DailyWithinLifetime(AddFoodCollectedSpec(s, cat, specific))
  {
    KeyShapes(cat, specific);
    CountCollectionKeepsDailyWithinLifetime(s, FoodKey(cat, specific), DailyFoodKey(cat, specific));
  }

  /** Each key in a category's specific daily keys is a daily key. */
  lemma {:induction false} SpecificDailyKeysAreDaily(cat: FoodType, codes: seq<int>)
    ensures forall k :: k in SpecificDailyKeys(cat, codes) ==> IsDailyFoodKey(k)
  {
    if codes != [] {
      SpecificDailyKeysAreDaily(cat, codes[..|codes| - 1]);
      KeyShapes(cat, Box(cat, codes[|codes| - 1]));
    }
  }

  lemma {:induction false} DailyKeysOfAreDaily(cats: seq<FoodType>)
    ensures forall k :: k in DailyKeysOf(cats) ==> IsDailyFoodKey(k)
  {
    if cats != [] {
      var cat := cats[|cats| - 1];
      DailyKeysOfAreDaily(cats[..|cats| - 1]);
      SpecificDailyKeysAreDaily(cat, ItemCodes(cat));
      KeyShapes(cat, Null);
    }
  }

  lemma {:induction false} SpecificDailyKeysContain(cat: FoodType, codes: seq<int>, code: int)
    requires code in codes
    ensures DailyFoodKey(cat, Box(cat, code)) in SpecificDailyKeys(cat, codes)
  {
    if codes[|codes| - 1] != code {
      assert code in codes[..|codes| - 1] by {
        var i :| 0 <= i < |codes| && codes[i] == code;
        assert i < |codes| - 1;
        assert codes[..|codes| - 1][i] == code;
      }
      SpecificDailyKeysContain(cat, codes[..|codes| - 1], code);
    }
  }

  /**
   * The daily reset deletes `NormalQuestsCompletedToday`, the general daily
   * key of every category and the daily key of every declared item, so they
   * all read 0 afterwards.
   */
  lemma ResetDailyClearsDailyCounters(s: Store, cat: FoodType, code: int)
    requires IsItemCode(code)
    ensures GetNormalQuestsCompletedToday(ResetDailyProgressSpec(s)) == 0
    ensures GetDailyFoodCollected(ResetDailyProgressSpec(s), cat, Null) == 0
    ensures GetDailyFoodCollected(ResetDailyProgressSpec(s), cat, Box(cat, code)) == 0
  {
    assert code in ItemCodes(cat) by {
      assert ItemCodes(cat)[code - 1] == code;
    }
    SpecificDailyKeysContain(cat, ItemCodes(cat), code);
    AllDailyKeys();
  }

  lemma AllDailyKeys()
    ensures DailyKeysOf(FoodTypes) == CategoryDailyKeys(Fruit) + CategoryDailyKeys(FastFood) + CategoryDailyKeys(Cake)
  {
    assert [Fruit][..0] == [];
    assert DailyKeysOf([Fruit]) == CategoryDailyKeys(Fruit);
    assert [Fruit, FastFood][..1] == [Fruit];
    assert DailyKeysOf([Fruit, FastFood]) == DailyKeysOf([Fruit]) + CategoryDailyKeys(FastFood);
    assert FoodTypes[..2] == [Fruit, FastFood];
  }

  /** Apart from `NormalQuestsCompletedToday`, the reset deletes only daily food keys. */
  lemma ResetKeysShape()
    ensures forall k :: k in ResetKeys() ==> k == NormalTodayKey || IsDailyFoodKey(k)
  {
    DailyKeysOfAreDaily(FoodTypes);
  }

  /**
   * The daily reset leaves lifetime food counters, gold, totals, skins and
   * every string and document other than the daily keys untouched.
   */
  lemma ResetDailyKeepsLifetime(s: Store, key: string)
    requires IsFoodKey(key) || key in {GoldKey, TotalFoodKey, TotalQuestsKey, CurrentSkinKey, LastResetKey, AchievementDataKey}
    ensures ResetDailyProgressSpec(s).GetInt(key, 0) == s.GetInt(key, 0)
    ensures ResetDailyProgressSpec(s).GetString(key, "") == s.GetString(key, "")
    ensures ResetDailyProgressSpec(s).GetDocument(key) == s.GetDocument(key)
  {
    ResetKeysShape();
    FirstChar(key);
    if !IsFoodKey(key) {
      NotFoodKeyByFirstChar(key);
    }
    assert key != NormalTodayKey by {
      assert NormalTodayKey[0] == 'N';
    }
  }

  lemma ResetDailyKeepsDailyWithinLifetime(s: Store)
    requires DailyWithinLifetime(s)
    ensures DailyWithinLifetime(ResetDailyProgressSpec(s))
  {
    ResetKeysShape();
    NotFoodKeyByFirstChar(NormalTodayKey);
    forall k | k in ResetKeys()
      ensures !IsFoodKey(k)
    {
      FirstChar(k);
    }
    DeleteKeepsDailyWithinLifetime(s, ResetKeys());
  }

  /** After `ClearAllData` every counter and flag reads its default. */
  lemma ClearAllDataDefaults(cat: FoodType, specific: Boxed, skin: int)
    ensures Gold(EmptyStore) == 0 && TotalFoodCollected(EmptyStore) == 0 && TotalQuestsCompleted(EmptyStore) == 0
    ensures GetFoodCollected(EmptyStore, cat, specific) == 0 && GetDailyFoodCollected(EmptyStore, cat, specific) == 0
    ensures GetNormalQuestsCompletedToday(EmptyStore) == 0
    ensures CurrentSkin(EmptyStore) == FirstSkinCode && !IsSkinUnlocked(EmptyStore, skin)
    ensures AchievementData(EmptyStore) == EmptyText
    ensures DailyWithinLifetime(EmptyStore)
  {
  }

  /**
   * `CheckAndResetDailyProgress` records today, so a second call on the same
   * day changes nothing; on a day other than the recorded one it resets.
   */
  lemma CheckAndResetOncePerDay(s: Store, today: string)
    ensures CheckAndResetSpec(s, today).GetString(LastResetKey, "") == today
    ensures CheckAndResetSpec(CheckAndResetSpec(s, today), today) == CheckAndResetSpec(s, today)
    ensures s.GetString(LastResetKey, "") != today ==>
      CheckAndResetSpec(s, today) == ResetDailyProgressSpec(s).SetString(LastResetKey, today)
  {
  }

  /** `AddNormalQuestCompleted` adds 1 to today's and to the lifetime quest count. */
  lemma AddNormalQuestCompletedCounts(s: Store)
    ensures GetNormalQuestsCompletedToday(AddNormalQuestCompletedSpec(s)) == GetNormalQuestsCompletedToday(s) + 1
    ensures TotalQuestsCompleted(AddNormalQuestCompletedSpec(s)) == TotalQuestsCompleted(s) + 1
    ensures Gold(AddNormalQuestCompletedSpec(s)) == Gold(s)
  {
  }

  /** Distinct declared skins have distinct keys, so unlocking one leaves the others as they were. */
  lemma SkinFlags(s: Store, skin: int, other: int)
    requires IsSkinCode(skin) && IsSkinCode(other) && other != skin
    ensures IsSkinUnlocked(s.SetInt(SkinKey(skin), 1), skin)
    ensures !IsSkinUnlocked(s.SetInt(SkinKey(skin), 0), skin)
    ensures IsSkinUnlocked(s.SetInt(SkinKey(skin), 1), other) == IsSkinUnlocked(s, other)
    ensures IsSkinUnlocked(s.SetInt(SkinKey(skin), 0), other) == IsSkinUnlocked(s, other)
  {
    assert SkinKey(skin)[9] != SkinKey(other)[9];
  }
}

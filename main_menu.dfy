/**
 * The skin carousel of `MainMenuUI`: the index into the skin list, the
 * selected skin code (index + 1, as `ESkin` starts at 1), the deferred save
 * of the current skin, and the purchase rule. Button wiring and the display
 * refresh are left out; the `OnSkinScrolled` notification is returned.
 */
module MainMenu {
  import opened Wrappers
  import opened Prefs
  import Enums
  import Text
  import GameData

  /** A `CharacterSkinSO` as the menu reads it. */
  datatype CharacterSkin = CharacterSkin(skinId: int, skinName: string, goldCost: int, isDefaultSkin: bool)

  /** `SelectPreviousSkin`'s index step: one back, from below 0 to the last skin. */
  function PreviousIndex(index: int, count: nat): (r: int)
    requires count > 0
    ensures 0 <= index < count ==> 0 <= r < count && r == (index - 1) % count
    ensures index > count ==> r == index - 1
  {
    if index - 1 < 0 then count - 1 else index - 1
  }

  /** `SelectNextSkin`'s index step: one on, from the end of the list to 0. */
  function NextIndex(index: int, count: nat): (r: int)
    requires count > 0
    ensures 0 <= index < count ==> 0 <= r < count && r == (index + 1) % count
    ensures index < -1 ==> r == index + 1
  {
    if index + 1 >= count then 0 else index + 1
  }

  /** Inside the list, stepping back and then on (or on and then back) returns to the same skin. */
  lemma StepsUndoEachOther(index: int, count: nat)
    requires count > 0 && 0 <= index < count
    ensures NextIndex(PreviousIndex(index, count), count) == index
    ensures PreviousIndex(NextIndex(index, count), count) == index
  {
    if index == 0 {
      assert PreviousIndex(index, count) == count - 1;
    }
    if index == count - 1 {
      assert NextIndex(index, count) == 0;
    }
  }

  /** The store after buying skin `selected` for `cost`: gold paid, skin unlocked, skin made current. */
  function Purchase(s: Store, selected: int, cost: int): Store {
    s.SetInt(GameData.GoldKey, GameData.Gold(s) - cost)
     .SetInt(GameData.SkinKey(selected), 1)
     .SetInt(GameData.CurrentSkinKey, selected)
  }

  /**
   * A purchase takes exactly the cost from the gold, unlocks the bought skin
   * and makes it current, and leaves the unlock state of every other skin
   * alone.
   */
  lemma PurchaseEffects(s: Store, selected: int, cost: int, other: int)
    requires Enums.IsSkinCode(selected) && Enums.IsSkinCode(other) && other != selected
    ensures GameData.Gold(Purchase(s, selected, cost)) == GameData.Gold(s) - cost
    ensures GameData.IsSkinUnlocked(Purchase(s, selected, cost), selected)
    ensures GameData.CurrentSkin(Purchase(s, selected, cost)) == selected
    ensures GameData.IsSkinUnlocked(Purchase(s, selected, cost), other) == GameData.IsSkinUnlocked(s, other)
  {
    GameData.SkinKeyShape(selected);
    assert GameData.SkinKey(selected)[0] == "Skin_"[0] == 'S';
    assert GameData.GoldKey[0] == 'G' && GameData.CurrentSkinKey[0] == 'C';
    SkinKeysDiffer(selected, other);
  }

  /** Distinct skin codes have distinct unlock keys. */
  lemma SkinKeysDiffer(a: int, b: int)
    requires Enums.IsSkinCode(a) && Enums.IsSkinCode(b) && a != b
    ensures GameData.SkinKey(a) != GameData.SkinKey(b)
  {
    var na, nb := Text.IntToString(a - 1), Text.IntToString(b - 1);
    assert GameData.SkinKey(a) == "Skin_Skin" + na && GameData.SkinKey(b) == "Skin_Skin" + nb;
    if na == nb {
      Text.ParseLongOfIntToString(a - 1);
      Text.ParseLongOfIntToString(b - 1);
    }
    assert ("Skin_Skin" + na)[9..] == na && ("Skin_Skin" + nb)[9..] == nb;
  }

  class MainMenuUI {
    const availableSkins: seq<CharacterSkin>
    var currentSkinIndex: int
    var currentSelectedSkin: int
    /** The skin a running `SetCurrentSkinAfterDelay` will store; a new one replaces (stops) the old. */
    var deferredSkin: Option<int>

    /** Fresh fields: index 0, skin `Skin0`, nothing pending. */
    constructor (skins: seq<CharacterSkin>)
      ensures availableSkins == skins && currentSkinIndex == 0
      ensures currentSelectedSkin == Enums.FirstSkinCode && deferredSkin == None
    {
      availableSkins := skins;
      currentSkinIndex := 0;
      currentSelectedSkin := Enums.FirstSkinCode;
      deferredSkin := None;
    }

    /** The carousel shows the selected skin: the code is the index plus one. */
    ghost predicate InStep()
      reads this
    {
      currentSelectedSkin == currentSkinIndex + 1
    }

    /**
     * `InitializeSkinSelection`: with skins, the selection becomes the stored
     * current skin and the index its code minus one; without skins nothing
     * changes.
     */
    method InitializeSkinSelection(prefs: PlayerPrefs)
      modifies this
      ensures |availableSkins| == 0 ==>
        currentSkinIndex == old(currentSkinIndex) && currentSelectedSkin == old(currentSelectedSkin)
      ensures |availableSkins| > 0 ==>
        currentSelectedSkin == GameData.CurrentSkin(prefs.Contents()) && currentSkinIndex == currentSelectedSkin - 1
      ensures deferredSkin == old(deferredSkin)
    {
      if |availableSkins| == 0 {
        return;
      }
      currentSelectedSkin := GameData.CurrentSkin(prefs.Contents());
      currentSkinIndex := currentSelectedSkin - 1;
    }

    /**
     * The selection test after a step: an unlocked skin, or the default skin
     * at the index; an index outside the list with a locked skin throws.
     * Returns (selectable, threw).
     */
    function Selectable(s: Store): (r: (bool, bool))
      reads this
      ensures r.1 ==> !r.0
      ensures GameData.IsSkinUnlocked(s, currentSelectedSkin) ==> r == (true, false)
    {
      if GameData.IsSkinUnlocked(s, currentSelectedSkin) then (true, false)
      else if 0 <= currentSkinIndex < |availableSkins| then (availableSkins[currentSkinIndex].isDefaultSkin, false)
      else (false, true)
    }

    /**
     * `SelectPreviousSkin`: with skins, the index steps back (wrapping below
     * 0 to the last skin), the code follows it, the scroll is announced, and
     * a selectable skin is scheduled to become current.
     */
    method SelectPreviousSkin(prefs: PlayerPrefs) returns (scrolled: Option<int>, threw: bool)
      modifies this
      ensures |availableSkins| == 0 ==>
        scrolled == None && !threw && currentSkinIndex == old(currentSkinIndex)
        && currentSelectedSkin == old(currentSelectedSkin) && deferredSkin == old(deferredSkin)
      ensures |availableSkins| > 0 ==>
        currentSkinIndex == PreviousIndex(old(currentSkinIndex), |availableSkins|)
        && InStep() && scrolled == Some(currentSelectedSkin)
        && threw == Selectable(prefs.Contents()).1
        && deferredSkin == if Selectable(prefs.Contents()).0 then Some(currentSelectedSkin) else old(deferredSkin)
    {
      scrolled, threw := None, false;
      if |availableSkins| == 0 {
        return;
      }
      currentSkinIndex := currentSkinIndex - 1;
      if currentSkinIndex < 0 {
        currentSkinIndex := |availableSkins| - 1;
      }
      currentSelectedSkin := currentSkinIndex + 1;
      scrolled := Some(currentSelectedSkin);
      var selectable;
      selectable, threw := Selectable(prefs.Contents()).0, Selectable(prefs.Contents()).1;
      if selectable {
        deferredSkin := Some(currentSelectedSkin);
      }
    }

    /**
     * `SelectNextSkin`: with skins, the index steps on (wrapping from the
     * end of the list to 0); the rest as in `SelectPreviousSkin`.
     */
    method SelectNextSkin(prefs: PlayerPrefs) returns (scrolled: Option<int>, threw: bool)
      modifies this
      ensures |availableSkins| == 0 ==>
        scrolled == None && !threw && currentSkinIndex == old(currentSkinIndex)
        && currentSelectedSkin == old(currentSelectedSkin) && deferredSkin == old(deferredSkin)
      ensures |availableSkins| > 0 ==>
        currentSkinIndex == NextIndex(old(currentSkinIndex), |availableSkins|)
        && InStep() && scrolled == Some(currentSelectedSkin)
        && threw == Selectable(prefs.Contents()).1
        && deferredSkin == if Selectable(prefs.Contents()).0 then Some(currentSelectedSkin) else old(deferredSkin)
    {
      scrolled, threw := None, false;
      if |availableSkins| == 0 {
        return;
      }
      currentSkinIndex := currentSkinIndex + 1;
      if currentSkinIndex >= |availableSkins| {
        currentSkinIndex := 0;
      }
      currentSelectedSkin := currentSkinIndex + 1;
      scrolled := Some(currentSelectedSkin);
      var selectable;
      selectable, threw := Selectable(prefs.Contents()).0, Selectable(prefs.Contents()).1;
      if selectable {
        deferredSkin := Some(currentSelectedSkin);
      }
    }

    /** The delay of `SetCurrentSkinAfterDelay` runs out: the pending skin is stored as current. */
    method DeferredSaveElapsed(prefs: PlayerPrefs)
      modifies this, prefs
      ensures deferredSkin == None
      ensures old(deferredSkin).Some? ==>
        prefs.Contents() == old(prefs.Contents()).SetInt(GameData.CurrentSkinKey, old(deferredSkin).value)
      ensures old(deferredSkin).None? ==> prefs.Contents() == old(prefs.Contents())
      ensures currentSkinIndex == old(currentSkinIndex) && currentSelectedSkin == old(currentSelectedSkin)
    {
      if deferredSkin.Some? {
        GameData.SetCurrentSkin(prefs, deferredSkin.value);
      }
      deferredSkin := None;
    }

    /**
     * `BuyCurrentSkin`: a locked, non-default skin at an index inside the
     * list is bought when the gold covers its cost; otherwise nothing
     * changes.
     */
    method BuyCurrentSkin(prefs: PlayerPrefs) returns (purchased: bool)
      modifies prefs
      ensures purchased <==>
        0 <= currentSkinIndex < |availableSkins|
        && !GameData.IsSkinUnlocked(old(prefs.Contents()), currentSelectedSkin)
        && !availableSkins[currentSkinIndex].isDefaultSkin
        && GameData.Gold(old(prefs.Contents())) >= availableSkins[currentSkinIndex].goldCost
      ensures purchased ==>
        prefs.Contents() == Purchase(old(prefs.Contents()), currentSelectedSkin, availableSkins[currentSkinIndex].goldCost)
      ensures !purchased ==> prefs.Contents() == old(prefs.Contents())
    {
      purchased := false;
      if currentSkinIndex < 0 || currentSkinIndex >= |availableSkins| {
        return;
      }
      var currentSkin := availableSkins[currentSkinIndex];
      var isUnlocked := GameData.IsSkinUnlocked(prefs.Contents(), currentSelectedSkin);
      if !isUnlocked && !currentSkin.isDefaultSkin {
        if GameData.Gold(prefs.Contents()) >= currentSkin.goldCost {
          GameData.SetGold(prefs, GameData.Gold(prefs.Contents()) - currentSkin.goldCost);
          GameData.UnlockSkin(prefs, currentSelectedSkin);
          GameData.SetCurrentSkin(prefs, currentSelectedSkin);
          purchased := true;
        }
      }
    }
  }
}

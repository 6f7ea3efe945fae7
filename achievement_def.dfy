/**
 * `AchievementSO`, the definition of an achievement: collect a number of one
 * specific food over the player's lifetime, or complete a number of quests.
 */
module AchievementDef {
  import opened Text
  import opened Enums

  /** `EAchievementType`: CollectSpecificFood = 0, CompleteQuests = 1. */
  datatype AchievementType = CollectSpecificFood | CompleteQuests

  /** `s.Replace(c.ToString(), "")`: `s` with every `c` removed. */
  function RemoveChar(s: string, c: char): (r: string)
    ensures c !in r
    ensures forall x :: x in r <==> x in s && x != c
    ensures |r| <= |s|
    ensures c !in s ==> r == s
  {
    if |s| == 0 then ""
    else (if s[0] == c then "" else [s[0]]) + RemoveChar(s[1..], c)
  }

  /** Removal drops exactly the occurrences of `c`: every other character keeps its count. */
  lemma {:induction false} RemoveCharCounts(s: string, c: char)
    ensures multiset(RemoveChar(s, c)) == multiset(s)[c := 0]
  {
    if |s| > 0 {
      assert s == [s[0]] + s[1..];
      RemoveCharCounts(s[1..], c);
    }
  }

  /**
   * Removal works piece by piece: removing from a concatenation is
   * removing from each part, so the characters kept stay in their order.
   */
  lemma {:induction false} RemoveCharConcat(a: string, b: string, c: char)
    ensures RemoveChar(a + b, c) == RemoveChar(a, c) + RemoveChar(b, c)
  {
    if |a| == 0 {
      assert a + b == b;
    } else {
      assert (a + b)[0] == a[0] && (a + b)[1..] == a[1..] + b;
      RemoveCharConcat(a[1..], b, c);
    }
  }

  /** The identifier derived from an asset name: spaces and both parentheses removed. */
  function IdFromName(name: string): string {
    RemoveChar(RemoveChar(RemoveChar(name, ' '), '('), ')')
  }

  class AchievementSO {
    /** The asset's file name. */
    const name: string
    var achievementId: string
    var achievementName: string
    var description: string
    var achievementType: AchievementType
    var targetValue: int
    var requiredFoodType: FoodType
    var requiredFruitType: int
    var requiredFastFoodType: int
    var requiredCakeType: int
    var goldReward: int
    var isHidden: bool

    /** An asset with the given serialised field values. */
    constructor(assetName: string, id: string, kind: AchievementType, target: int, cat: FoodType,
                fruit: int, fastFood: int, cake: int, reward: int)
      ensures name == assetName && achievementId == id && achievementType == kind && targetValue == target
      ensures requiredFoodType == cat && requiredFruitType == fruit && requiredFastFoodType == fastFood
      ensures requiredCakeType == cake && goldReward == reward
      ensures achievementName == "" && description == "" && !isHidden
    {
      name := assetName;
      achievementId := id;
      achievementName := "";
      description := "";
      achievementType := kind;
      targetValue := target;
      requiredFoodType := cat;
      requiredFruitType := fruit;
      requiredFastFoodType := fastFood;
      requiredCakeType := cake;
      goldReward := reward;
      isHidden := false;
    }

    /** The required item code of the category the achievement asks for. */
    function RequiredSpecificCode(): (code: int)
      reads this
      ensures requiredFoodType == Fruit ==> code == requiredFruitType
      ensures requiredFoodType == FastFood ==> code == requiredFastFoodType
      ensures requiredFoodType == Cake ==> code == requiredCakeType
    {
      match requiredFoodType
      case Fruit => requiredFruitType
      case FastFood => requiredFastFoodType
      case Cake => requiredCakeType
    }

    /** The name of the required specific food. */
    function GetSpecificFoodName(): (foodName: string)
      reads this
      ensures foodName == ItemName(requiredFoodType, RequiredSpecificCode())
    {
      match requiredFoodType
      case Fruit => ItemName(Fruit, requiredFruitType)
      case FastFood => ItemName(FastFood, requiredFastFoodType)
      case Cake => ItemName(Cake, requiredCakeType)
    }

    /**
     * Editor validation: an empty id is derived from the asset name, a
     * non-empty one is kept; the target is at least 1 and the reward at least 0.
     */
    method OnValidate()
      modifies this
      ensures old(achievementId) == "" ==> achievementId == IdFromName(name)
      ensures old(achievementId) != "" ==> achievementId == old(achievementId)
      ensures targetValue == if old(targetValue) < 1 then 1 else old(targetValue)
      ensures goldReward == if old(goldReward) < 0 then 0 else old(goldReward)
      ensures achievementType == old(achievementType) && requiredFoodType == old(requiredFoodType)
      ensures RequiredSpecificCode() == old(RequiredSpecificCode())
      ensures achievementName == old(achievementName) && description == old(description)
    {
      if achievementId == "" {
        achievementId := IdFromName(name);
      }
      if targetValue < 1 {
        targetValue := 1;
      }
      if goldReward < 0 {
        goldReward := 0;
      }
    }

    /** Writes the name and description the achievement's type calls for. */
    method GenerateDescription()
      modifies this
      ensures achievementType == CollectSpecificFood ==>
        description == "Collect " + IntToString(targetValue) + " " + GetSpecificFoodName() + " items"
        && achievementName == GetSpecificFoodName() + " Master"
      ensures achievementType == CompleteQuests ==>
        description == "Complete " + IntToString(targetValue) + " quests"
        && achievementName == "Quest Hero " + IntToString(targetValue)
      ensures achievementId == old(achievementId) && achievementType == old(achievementType)
      ensures targetValue == old(targetValue) && goldReward == old(goldReward)
      ensures requiredFoodType == old(requiredFoodType) && RequiredSpecificCode() == old(RequiredSpecificCode())
    {
      match achievementType
      case CollectSpecificFood =>
        var foodName := GetSpecificFoodName();
        description := "Collect " + IntToString(targetValue) + " " + foodName + " items";
        achievementName := foodName + " Master";
      case CompleteQuests =>
        description := "Complete " + IntToString(targetValue) + " quests";
        achievementName := "Quest Hero " + IntToString(targetValue);
    }
  }

  /** A derived id holds no space and no parenthesis, keeps every other character of the name, and leaves a clean name as it is. */
  lemma IdFromNameShape(name: string)
    ensures var id := IdFromName(name);
      ' ' !in id && '(' !in id && ')' !in id
      && (forall x :: x in id <==> x in name && x != ' ' && x != '(' && x != ')')
      && multiset(id) == multiset(name)[' ' := 0]['(' := 0][')' := 0]
      && (' ' !in name && '(' !in name && ')' !in name ==> id == name)
  {
    RemoveCharCounts(name, ' ');
    RemoveCharCounts(RemoveChar(name, ' '), '(');
    RemoveCharCounts(RemoveChar(RemoveChar(name, ' '), '('), ')');
  }

  /** The id of a concatenation is the concatenation of the ids: the kept characters keep their order. */
  lemma IdFromNameConcat(a: string, b: string)
    ensures IdFromName(a + b) == IdFromName(a) + IdFromName(b)
  {
    RemoveCharConcat(a, b, ' ');
    RemoveCharConcat(RemoveChar(a, ' '), RemoveChar(b, ' '), '(');
    RemoveCharConcat(RemoveChar(RemoveChar(a, ' '), '('), RemoveChar(RemoveChar(b, ' '), '('), ')');
  }

  /** Deriving an id twice gives the same id. */
  lemma IdFromNameIdempotent(name: string)
    ensures IdFromName(IdFromName(name)) == IdFromName(name)
  {
    IdFromNameShape(name);
  }
}

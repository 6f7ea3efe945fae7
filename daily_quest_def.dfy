/**
 * `DailyQuestSO`, the definition of a daily quest: either "complete N normal
 * quests" or "collect N items of one specific food", with a gold reward.
 */
module DailyQuestDef {
  import opened Text
  import opened Enums

  /** `EDailyQuestType`: CompleteNormalQuests = 0, CollectSpecificFood = 1. */
  datatype DailyQuestType = CompleteNormalQuests | CollectSpecificFood

  /** The tail of a CompleteNormalQuests description, after the count. */
  const NormalQuestsPhrase := " normal quests (collect 3 required foods each)"

  class DailyQuestSO {
    var questName: string
    var questDescription: string
    var questType: DailyQuestType
    var targetValue: int
    var requiredFoodType: FoodType
    var requiredFruitType: int
    var requiredFastFoodType: int
    var requiredCakeType: int
    var goldReward: int

    /**
     * A definition with the serialised defaults (empty texts, target and
     * reward 0, Fruit, and the first item of each category), then given its
     * type, target, category and reward.
     */
    constructor(kind: DailyQuestType, target: int, cat: FoodType, reward: int)
      ensures questName == "" && questDescription == ""
      ensures questType == kind && targetValue == target && requiredFoodType == cat && goldReward == reward
      ensures requiredFruitType == 1 && requiredFastFoodType == 1 && requiredCakeType == 1
    {
      questName := "";
      questDescription := "";
      questType := kind;
      targetValue := target;
      requiredFoodType := cat;
      requiredFruitType := 1;
      requiredFastFoodType := 1;
      requiredCakeType := 1;
      goldReward := reward;
    }

    /** The required item code of the category the quest asks for. */
    function RequiredSpecificCode(): (code: int)
      reads this
      ensures requiredFoodType == Fruit ==> code == requiredFruitType
      ensures requiredFoodType == FastFood ==> code == requiredFastFoodType
      ensures requiredFoodType == Cake ==> code == requiredCakeType
    {
      match requiredFoodType
      case Fruit => requiredFruitType
      case FastFood => requiredFastFoodType
      case Cake => requiredCakeType
    }

    /** The name of the required specific food: the member name of the field that belongs to the required category. */
    function GetSpecificFoodName(): (name: string)
      reads this
      ensures name == ItemName(requiredFoodType, RequiredSpecificCode())
    {
      match requiredFoodType
      case Fruit => ItemName(Fruit, requiredFruitType)
      case FastFood => ItemName(FastFood, requiredFastFoodType)
      case Cake => ItemName(Cake, requiredCakeType)
    }

    /** Editor validation: the target is at least 1 and the reward at least 0; nothing else changes. */
    method OnValidate()
      modifies this
      ensures targetValue == if old(targetValue) < 1 then 1 else old(targetValue)
      ensures goldReward == if old(goldReward) < 0 then 0 else old(goldReward)
      ensures 1 <= targetValue && 0 <= goldReward
      ensures questName == old(questName) && questDescription == old(questDescription)
      ensures questType == old(questType) && requiredFoodType == old(requiredFoodType)
      ensures requiredFruitType == old(requiredFruitType) && requiredFastFoodType == old(requiredFastFoodType)
      ensures requiredCakeType == old(requiredCakeType)
    {
      if targetValue < 1 {
        targetValue := 1;
      }
      if goldReward < 0 {
        goldReward := 0;
      }
    }

    /** Writes the name and description the quest's type calls for. */
    method GenerateQuestDescription()
      modifies this
      ensures questType == CompleteNormalQuests ==>
        questName == "Quest Completionist"
        && questDescription == "Complete " + IntToString(targetValue) + NormalQuestsPhrase
      ensures questType == CollectSpecificFood ==>
        questName == GetSpecificFoodName() + " Collector"
        && questDescription == "Collect " + IntToString(targetValue) + " " + GetSpecificFoodName() + " items"
      ensures questType == old(questType) && targetValue == old(targetValue) && goldReward == old(goldReward)
      ensures requiredFoodType == old(requiredFoodType) && RequiredSpecificCode() == old(RequiredSpecificCode())
    {
      match questType
      case CompleteNormalQuests =>
        questDescription := "Complete " + IntToString(targetValue) + NormalQuestsPhrase;
        questName := "Quest Completionist";
      case CollectSpecificFood =>
        var specificFoodName := GetSpecificFoodName();
        questDescription := "Collect " + IntToString(targetValue) + " " + specificFoodName + " items";
        questName := specificFoodName + " Collector";
    }
  }

  /** A collect-food quest's name tells its item apart: distinct declared items of a category give distinct names. */
  lemma CollectorNamesDistinct(cat: FoodType, a: int, b: int)
    requires IsItemCode(a) && IsItemCode(b) && a != b
    ensures ItemName(cat, a) + " Collector" != ItemName(cat, b) + " Collector"
  {
    ItemNamesDistinct(cat, a, b);
    var x := ItemName(cat, a) + " Collector";
    var y := ItemName(cat, b) + " Collector";
    assert x[..|x| - 10] == ItemName(cat, a);
    assert y[..|y| - 10] == ItemName(cat, b);
  }
}

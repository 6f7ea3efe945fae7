/**
 * Collectable good food: the base `GoodFood` and its three subclasses, the
 * runtime type tests the rest of the game applies to them, and the decision
 * taken when a collider touches one.
 */
module Foods {
  import opened Wrappers
  import opened Enums
  import Prefs
  import GameData

  /** The runtime class of a good food, with the subclass's own item code. */
  datatype FoodKind =
    | BaseFood
    | FruitFood(fruitType: int)
    | FastFoodFood(fastFoodType: int)
    | CakeFood(cakeType: int)

  /** A good food: its serialised category and its runtime class. */
  datatype GoodFood = GoodFood(foodType: FoodType, kind: FoodKind)

  /** The base test: the argument is a boxed category equal to the food's own. */
  function BaseMatchType(food: GoodFood, x: Boxed): bool {
    if x.BoxedFoodType? then x.food == food.foodType else false
  }

  /**
   * The virtual `MatchType`: each subclass first demands its own item enum and
   * then also calls the base test, which demands a category enum.
   */
  function MatchType(food: GoodFood, x: Boxed): (r: bool)
    ensures r <==> food.kind.BaseFood? && x == BoxedFoodType(food.foodType)
  {
    match food.kind
    case BaseFood => BaseMatchType(food, x)
    case FruitFood(c) => (match x case BoxedFruit(f) => BaseMatchType(food, x) && f == c case _ => false)
    case FastFoodFood(c) => (match x case BoxedFastFood(f) => BaseMatchType(food, x) && f == c case _ => false)
    case CakeFood(c) => (match x case BoxedCake(f) => BaseMatchType(food, x) && f == c case _ => false)
  }

  /**
   * The specific type written to the ledger: null for the base class and for
   * `Fruit`, which does not override it; the boxed item for the other two.
   */
  function GetSpecificFoodType(food: GoodFood): (b: Boxed)
    ensures b.Null? <==> food.kind.BaseFood? || food.kind.FruitFood?
    ensures food.kind.FastFoodFood? ==> b == BoxedFastFood(food.kind.fastFoodType)
    ensures food.kind.CakeFood? ==> b == BoxedCake(food.kind.cakeType)
  {
    match food.kind
    case FastFoodFood(c) => BoxedFastFood(c)
    case CakeFood(c) => BoxedCake(c)
    case _ => Null
  }

  /** The item code a subclass carries; the base class carries none. */
  function ItemCode(kind: FoodKind): Option<int> {
    match kind
    case BaseFood => None
    case FruitFood(c) => Some(c)
    case FastFoodFood(c) => Some(c)
    case CakeFood(c) => Some(c)
  }

  /** The runtime class is the subclass that belongs to the food's own category. */
  predicate ClassMatchesCategory(food: GoodFood) {
    match food.foodType
    case Fruit => food.kind.FruitFood?
    case FastFood => food.kind.FastFoodFood?
    case Cake => food.kind.CakeFood?
  }

  /**
   * The specific item code, when the runtime class is the one of the food's
   * category, otherwise -1.
   */
  function GetSpecificItemValue(food: GoodFood): (v: int)
    ensures ClassMatchesCategory(food) ==> Some(v) == ItemCode(food.kind)
    ensures !ClassMatchesCategory(food) ==> v == -1
  {
    match food.foodType
    case Fruit => if food.kind.FruitFood? then food.kind.fruitType else -1
    case FastFood => if food.kind.FastFoodFood? then food.kind.fastFoodType else -1
    case Cake => if food.kind.CakeFood? then food.kind.cakeType else -1
  }

  /** The collider that touched a food: its tag and, for a bot, its `BotController`'s player type. */
  datatype Collider = Collider(tag: string, botController: Option<PlayerType>)

  /** The payload of a collection event. */
  datatype FoodCollectionData = FoodCollectionData(food: GoodFood, playerType: PlayerType)

  /** The object a good-food event carries, as the managers test it: a collection record, a bare food, or anything else. */
  datatype EventPayload = CollectionPayload(data: FoodCollectionData) | FoodPayload(food: GoodFood) | OtherPayload

  /**
   * The food a manager's `OnGoodFoodCollected` goes on to process: the food of
   * a collection by the player, or a bare food; none for a bot's collection or
   * any other payload.
   */
  function ProcessedFood(p: EventPayload): Option<GoodFood> {
    match p
    case CollectionPayload(d) => if d.playerType == Player then Some(d.food) else None
    case FoodPayload(f) => Some(f)
    case OtherPayload => None
  }

  /** The collector the handler settles on, and whether it counts as a player. */
  function Collector(other: Collider): (PlayerType, bool) {
    if other.tag == "Player" then (Player, true)
    else if other.tag == "Bot" && other.botController.Some? then (other.botController.value, true)
    else (Player, false)
  }

  /**
   * A collider touches a good food. Returns the event payload (always
   * announced as a good-food collection), whether the player-collection event
   * is also announced, and whether the food is removed from play (only the
   * player's touch removes it). The ledger is written exactly when the
   * collider counts as a player.
   */
  method OnTriggerEnter(food: GoodFood, other: Collider, prefs: Prefs.PlayerPrefs)
    returns (data: FoodCollectionData, playerCollect: bool, removed: bool)
    modifies prefs
    ensures data == FoodCollectionData(food, Collector(other).0)
    ensures playerCollect == Collector(other).1
    ensures playerCollect ==> prefs.Contents() == GameData.AddFoodCollectedSpec(old(prefs.Contents()), food.foodType, GetSpecificFoodType(food))
    ensures !playerCollect ==> prefs.Contents() == old(prefs.Contents())
    ensures removed <==> other.tag == "Player"
  {
    var playerType := Player;
    var isPlayer := false;
    if other.tag == "Player" {
      playerType := Player;
      isPlayer := true;
    } else if other.tag == "Bot" {
      if other.botController.Some? {
        playerType := other.botController.value;
        isPlayer := true;
      }
    }
    data := FoodCollectionData(food, playerType);
    if isPlayer {
      GameData.AddFoodCollected(prefs, food.foodType, GetSpecificFoodType(food));
    }
    playerCollect := isPlayer;
    removed := other.tag == "Player";
  }

  /** A bot's collection is never processed, a player's always is, with its own food. */
  lemma OnlyPlayerCollectionsProcessed(food: GoodFood, who: PlayerType)
    ensures ProcessedFood(CollectionPayload(FoodCollectionData(food, who))) == if who == Player then Some(food) else None
    ensures ProcessedFood(FoodPayload(food)) == Some(food) && ProcessedFood(OtherPayload) == None
  {
  }

  /** For foods with declared item codes, -1 is returned exactly when the class does not match the category. */
  lemma SpecificItemValueMismatch(food: GoodFood)
    requires ItemCode(food.kind).Some? ==> IsItemCode(ItemCode(food.kind).value)
    ensures GetSpecificItemValue(food) == -1 <==> !ClassMatchesCategory(food)
    ensures GetSpecificItemValue(food) != -1 ==> IsItemCode(GetSpecificItemValue(food))
  {
  }

  /** Collector classification: the player tag, a bot with a controller, or nobody. */
  lemma CollectorCases(other: Collider)
    ensures other.tag == "Player" ==> Collector(other) == (Player, true)
    ensures other.tag == "Bot" && other.botController.Some? ==> Collector(other) == (other.botController.value, true)
    ensures Collector(other).1 <==> other.tag == "Player" || (other.tag == "Bot" && other.botController.Some?)
    ensures !Collector(other).1 ==> Collector(other).0 == Player
  {
  }

  /**
   * A bot collection writes the ledger as well, under the same keys a player
   * collection would use.
   */
  lemma BotCollectionsReachLedger(bot: PlayerType)
    ensures Collector(Collider("Bot", Some(bot))) == (bot, true)
  {
  }

  /** Fruits and the base class are recorded under the category-only counter. */
  lemma CategoryOnlyLedgerKey(food: GoodFood)
    requires food.kind.BaseFood? || food.kind.FruitFood?
    ensures GameData.FoodKey(food.foodType, GetSpecificFoodType(food)) == "Food_" + food.foodType.Name()
  {
  }

  /** Fast food is recorded under `Food_FastFood_<item name>`. */
  lemma FastFoodLedgerKey(c: int)
    ensures GameData.FoodKey(FastFood, GetSpecificFoodType(GoodFood(FastFood, FastFoodFood(c))))
         == "Food_FastFood_" + ItemName(FastFood, c)
  {
  }
}

/**
 * The game's enumerations: food categories, the specific items of each
 * category, player types and character skins, with the codes and names the
 * C# enums give them.
 */
module Enums {
  import Text

  /** `EFoodType`: Fruit = 1, FastFood = 2, Cake = 3. */
  datatype FoodType = Fruit | FastFood | Cake {

    function Code(): int {
      match this
      case Fruit => 1
      case FastFood => 2
      case Cake => 3
    }

    /** `foodType.ToString()`. */
    function Name(): string {
      match this
      case Fruit => "Fruit"
      case FastFood => "FastFood"
      case Cake => "Cake"
    }
  }

  /** `Enum.GetValues(typeof(EFoodType))`, in declaration (= value) order. */
  const FoodTypes: seq<FoodType> := [Fruit, FastFood, Cake]

  /** Member names of `EFruitType`, `EFastFoodType` and `ECakeType`; the name of code `c` sits at index `c - 1`. */
  const FruitNames: seq<string> :=
    ["Apple", "Banana", "Coconut", "HoneyMelon", "Kiwi", "Lemon", "Lime", "Orange", "Pear"]
  const FastFoodNames: seq<string> :=
    ["Baccon", "BoxNuggets", "BurgerChicken", "ChipBag", "Corndog", "CrinkleFries", "Hotdog", "SandwichHam", "SandwichSausage"]
  const CakeNames: seq<string> :=
    ["Berry", "Caramel", "Cherry", "Chocolate", "Lemon", "Lilac", "Lime", "Matcha", "Plain"]

  function NamesOf(cat: FoodType): (names: seq<string>)
    ensures |names| == 9
  {
    match cat
    case Fruit => FruitNames
    case FastFood => FastFoodNames
    case Cake => CakeNames
  }

  /** A declared code of the category's specific-item enum. */
  predicate IsItemCode(code: int) {
    1 <= code <= 9
  }

  /**
   * `Enum.GetValues(typeof(EFruitType))` (resp. `EFastFoodType`, `ECakeType`)
   * cast to `int`: the codes of the category's items, in value order.
   */
  function ItemCodes(cat: FoodType): (codes: seq<int>)
    ensures |codes| == 9
    ensures forall i :: 0 <= i < 9 ==> codes[i] == i + 1
    ensures forall x :: x in codes <==> IsItemCode(x)
  {
    var codes := seq(9, i => i + 1);
    assert forall x :: IsItemCode(x) ==> codes[x - 1] == x;
    codes
  }

  /**
   * `((EFruitType)code).ToString()` (resp. the category's own enum): the
   * member name of a declared code, and the decimal number for any other
   * value, as .NET prints an undeclared enum value.
   */
  function ItemName(cat: FoodType, code: int): string {
    if IsItemCode(code) then NamesOf(cat)[code - 1] else Text.IntToString(code)
  }

  /** `EPlayerType`: Player = 0, Edward = 1, Bruce = 2. */
  datatype PlayerType = Player | Edward | Bruce {
    function Code(): int {
      match this
      case Player => 0
      case Edward => 1
      case Bruce => 2
    }
  }

  /** `ESkin`: Skin0 = 1, ..., Skin9 = 10. */
  const FirstSkinCode: int := 1
  const LastSkinCode: int := 10

  predicate IsSkinCode(code: int) {
    FirstSkinCode <= code <= LastSkinCode
  }

  /** `((ESkin)code).ToString()`. */
  function SkinName(code: int): string {
    if IsSkinCode(code) then "Skin" + Text.IntToString(code - 1) else Text.IntToString(code)
  }

  /**
   * A C# `object` that holds either null or a boxed enum value; the case says
   * which enum type the box has at run time.
   */
  datatype Boxed =
    | Null
    | BoxedFoodType(food: FoodType)
    | BoxedFruit(fruit: int)
    | BoxedFastFood(fastFood: int)
    | BoxedCake(cake: int)
  {
    /** `obj.ToString()` for a non-null box. */
    function ToString(): string
      requires !Null?
    {
      match this
      case BoxedFoodType(f) => f.Name()
      case BoxedFruit(c) => ItemName(Fruit, c)
      case BoxedFastFood(c) => ItemName(FastFood, c)
      case BoxedCake(c) => ItemName(Cake, c)
    }
  }

  /** `(object)(EFruitType)code` (resp. the category's own enum): an item code boxed as its category's enum type. */
  function Box(cat: FoodType, code: int): (b: Boxed)
    ensures !b.Null? && b.ToString() == ItemName(cat, code)
  {
    match cat
    case Fruit => BoxedFruit(code)
    case FastFood => BoxedFastFood(code)
    case Cake => BoxedCake(code)
  }

  /** The category codes are 1, 2, 3 and name the three categories apart. */
  lemma FoodTypeCodes()
    ensures forall f: FoodType :: 1 <= f.Code() <= 3
    ensures forall f: FoodType, g: FoodType :: f.Code() == g.Code() ==> f == g
    ensures forall f: FoodType, g: FoodType :: f.Name() == g.Name() ==> f == g
  {
  }

  /**
   * Item codes and names are unique only within a category: Lemon and Lime
   * are both a fruit and a cake, and Lime is code 7 in both.
   */
  lemma SharedItemNames()
    ensures ItemName(Fruit, 6) == "Lemon" && ItemName(Cake, 5) == "Lemon"
    ensures ItemName(Fruit, 7) == "Lime" && ItemName(Cake, 7) == "Lime"
  {
  }

  /** Within one category, different declared codes have different names. */
  lemma ItemNamesDistinct(cat: FoodType, a: int, b: int)
    requires IsItemCode(a) && IsItemCode(b) && a != b
    ensures ItemName(cat, a) != ItemName(cat, b)
  {
  }
}

/**
 * The definition of a normal quest, `FoodCollectionQuest`: collect a handful
 * of distinct specific items of one food category. The item selection is
 * drawn at random and the description is rebuilt from the selected names.
 */
module FoodCollectionQuestDef {
  import opened Enums
  import opened Seqs

  /**
   * `OrderBy(x => Random.value)`: the random order is an oracle `choose`; at
   * each step the element at `choose(|xs|) % |xs|` of the remaining ones is
   * put next.
   */
  function ShuffleBy(xs: seq<int>, choose: nat -> nat): (r: seq<int>)
    ensures |r| == |xs|
    ensures multiset(r) == multiset(xs)
    ensures Distinct(xs) ==> Distinct(r)
    decreases |xs|
  {
    if |xs| == 0 then []
    else
      var k := choose(|xs|) % |xs|;
      var rest := xs[..k] + xs[k + 1..];
      assert xs == xs[..k] + [xs[k]] + xs[k + 1..];
      DistinctRemove(xs, k);
      var tail := ShuffleBy(rest, choose);
      assert Distinct(xs) ==> xs[k] !in multiset(tail);
      [xs[k]] + tail
  }

  /** The names of the given item codes of a category, in the same order. */
  function ItemNames(cat: FoodType, codes: seq<int>): (names: seq<string>)
    ensures |names| == |codes|
    ensures forall i :: 0 <= i < |codes| ==> names[i] == ItemName(cat, codes[i])
  {
    seq(|codes|, i requires 0 <= i < |codes| => ItemName(cat, codes[i]))
  }

  /** English enumeration: "A", "A and B", "A, B and C", ... */
  function EnglishList(names: seq<string>): string {
    if |names| == 0 then ""
    else if |names| == 1 then names[0]
    else CommaList(names[..|names| - 1]) + " and " + names[|names| - 1]
  }

  /** The names joined with ", ". */
  function CommaList(names: seq<string>): string {
    if |names| == 0 then ""
    else if |names| == 1 then names[0]
    else CommaList(names[..|names| - 1]) + ", " + names[|names| - 1]
  }

  /** What follows the `i`-th name while the description is built: " and " before the last name, ", " before the others. */
  function Separator(i: int, n: int): string {
    if i < n - 1 then (if i == n - 2 then " and " else ", ") else ""
  }

  /** The text the description loop has built after its first `i` rounds. */
  function ListText(names: seq<string>, i: nat): string
    requires i <= |names|
  {
    if i == 0 then "" else ListText(names, i - 1) + names[i - 1] + Separator(i - 1, |names|)
  }

  class FoodCollectionQuest {
    const questName: string
    const foodType: FoodType
    var questDescription: string
    var itemCount: int
    var selectedSpecificItems: seq<int>
    var scoreReward: int
    var bonusScore: int

    /** A definition with the given serialised field values. */
    constructor(name: string, description: string, cat: FoodType, count: int, selected: seq<int>, score: int, bonus: int)
      ensures questName == name && questDescription == description && foodType == cat
      ensures itemCount == count && selectedSpecificItems == selected
      ensures scoreReward == score && bonusScore == bonus
    {
      questName := name;
      questDescription := description;
      foodType := cat;
      itemCount := count;
      selectedSpecificItems := selected;
      scoreReward := score;
      bonusScore := bonus;
    }

    /** The number of items to collect: the selection's size once items are selected, `itemCount` before. */
    function TargetAmount(): (n: int)
      reads this
      ensures |selectedSpecificItems| > 0 ==> n == |selectedSpecificItems|
      ensures |selectedSpecificItems| == 0 ==> n == itemCount
    {
      if |selectedSpecificItems| > 0 then |selectedSpecificItems| else itemCount
    }

    /** Whether the item code is one of the selected items. */
    function IsSpecificItemRequired(code: int): (r: bool)
      reads this
      ensures r <==> exists i :: 0 <= i < |selectedSpecificItems| && selectedSpecificItems[i] == code
    {
      code in selectedSpecificItems
    }

    /** The names of the selected items, in selection order. */
    method GetRequiredItemNames() returns (names: seq<string>)
      ensures names == ItemNames(foodType, selectedSpecificItems)
    {
      names := [];
      for i := 0 to |selectedSpecificItems|
        invariant names == ItemNames(foodType, selectedSpecificItems[..i])
      {
        names := names + [ItemName(foodType, selectedSpecificItems[i])];
      }
      assert selectedSpecificItems[..|selectedSpecificItems|] == selectedSpecificItems;
    }

    /**
     * Rebuilds the description as "Collect " and the English list of the
     * selected names; leaves it alone when nothing is selected.
     */
    method UpdateQuestTextForSpecificItems()
      modifies this
      ensures |selectedSpecificItems| == 0 ==> questDescription == old(questDescription)
      ensures |selectedSpecificItems| > 0 ==>
        questDescription == "Collect " + EnglishList(ItemNames(foodType, selectedSpecificItems))
      ensures itemCount == old(itemCount) && selectedSpecificItems == old(selectedSpecificItems)
      ensures scoreReward == old(scoreReward) && bonusScore == old(bonusScore)
    {
      if |selectedSpecificItems| == 0 {
        return;
      }
      var itemNames := ItemNamesText(selectedSpecificItems);
      questDescription := "Collect " + itemNames;
    }

    /** The loop of `UpdateQuestTextForSpecificItems`: the names of `selected`, in order, as an English list. */
    method ItemNamesText(selected: seq<int>) returns (itemNames: string)
      ensures itemNames == EnglishList(ItemNames(foodType, selected))
    {
      ghost var names := ItemNames(foodType, selected);
      itemNames := "";
      var i := 0;
      while i < |selected|
        invariant 0 <= i <= |selected|
        invariant itemNames == ListText(names, i)
      {
        var itemName := ItemName(foodType, selected[i]);
        ListTextStep(names, i, itemNames, itemName);
        itemNames := itemNames + itemName;
        if i < |selected| - 1 {
          itemNames := itemNames + (if i == |selected| - 2 then " and " else ", ");
        }
        i := i + 1;
      }
      ListTextIsEnglishList(names);
    }

    /**
     * Replaces the selection with `itemCount` distinct item codes of the
     * quest's category in random order, first lowering `itemCount` to the
     * number of items the category has, and rebuilds the description.
     */
    method GenerateRandomSpecificItems(choose: nat -> nat)
      modifies this
      ensures itemCount == if old(itemCount) > |ItemCodes(foodType)| then |ItemCodes(foodType)| else old(itemCount)
      ensures selectedSpecificItems == Take(ShuffleBy(ItemCodes(foodType), choose), itemCount)
      ensures Distinct(selectedSpecificItems)
      ensures forall x :: x in selectedSpecificItems ==> IsItemCode(x)
      ensures |selectedSpecificItems| == if itemCount <= 0 then 0 else itemCount
      ensures |selectedSpecificItems| == 0 ==> questDescription == old(questDescription)
      ensures |selectedSpecificItems| > 0 ==>
        questDescription == "Collect " + EnglishList(ItemNames(foodType, selectedSpecificItems))
      ensures scoreReward == old(scoreReward) && bonusScore == old(bonusScore)
    {
      selectedSpecificItems := [];
      var availableItems := ItemCodes(foodType);
      if |availableItems| < itemCount {
        itemCount := |availableItems|;
      }
      ItemCodesDistinct(foodType);
      SelectionFromShuffle(availableItems, choose, itemCount);
      selectedSpecificItems := Take(ShuffleBy(availableItems, choose), itemCount);
      UpdateQuestTextForSpecificItems();
    }

    /** Editor validation: `itemCount` into `[2, 6]`, both rewards at least 0. */
    method OnValidate()
      modifies this
      ensures 2 <= itemCount <= 6
      ensures 2 <= old(itemCount) <= 6 ==> itemCount == old(itemCount)
      ensures old(itemCount) < 2 ==> itemCount == 2
      ensures old(itemCount) > 6 ==> itemCount == 6
      ensures scoreReward == if old(scoreReward) < 0 then 0 else old(scoreReward)
      ensures bonusScore == if old(bonusScore) < 0 then 0 else old(bonusScore)
      ensures questDescription == old(questDescription) && selectedSpecificItems == old(selectedSpecificItems)
    {
      if itemCount < 2 {
        itemCount := 2;
      }
      if itemCount > 6 {
        itemCount := 6;
      }
      if scoreReward < 0 {
        scoreReward := 0;
      }
      if bonusScore < 0 {
        bonusScore := 0;
      }
    }
  }

  /** The item codes of a category are pairwise distinct. */
  lemma ItemCodesDistinct(cat: FoodType)
    ensures Distinct(ItemCodes(cat))
  {
  }

  /** A prefix of a shuffle of distinct items holds distinct items, all drawn from them. */
  lemma SelectionFromShuffle(xs: seq<int>, choose: nat -> nat, n: int)
    requires Distinct(xs)
    ensures Distinct(Take(ShuffleBy(xs, choose), n))
    ensures forall x :: x in Take(ShuffleBy(xs, choose), n) ==> x in xs
  {
    var all := ShuffleBy(xs, choose);
    DistinctPrefix(all, Take(all, n));
    forall x | x in Take(all, n)
      ensures x in xs
    {
      assert x in multiset(all);
    }
  }

  /** One round of the description loop: the `i`-th name, then " and " before the last name, ", " before the others. */
  lemma ListTextStep(names: seq<string>, i: nat, text: string, name: string)
    requires i < |names| && text == ListText(names, i) && name == names[i]
    ensures i < |names| - 1 ==> text + name + (if i == |names| - 2 then " and " else ", ") == ListText(names, i + 1)
    ensures i == |names| - 1 ==> text + name == ListText(names, i + 1)
  {
    assert text + name + "" == text + name;
  }

  /** Before the next-to-last name, the loop's text is the comma list so far followed by ", ". */
  lemma {:induction false} ListTextBeforeLast(names: seq<string>, i: nat)
    requires 1 <= i < |names| - 1
    ensures ListText(names, i) == CommaList(names[..i]) + ", "
  {
    if i > 1 {
      ListTextBeforeLast(names, i - 1);
      assert names[..i][..i - 1] == names[..i - 1];
    }
  }

  /** The description loop builds exactly the English enumeration of the names. */
  lemma ListTextIsEnglishList(names: seq<string>)
    ensures ListText(names, |names|) == EnglishList(names)
  {
    var n := |names|;
    if n >= 3 {
      EnglishListOfMany(names);
      ListTextOfMany(names);
    } else if n == 2 {
      ListTextOfTwo(names);
    }
  }

  /** Two names are joined with " and ", by the loop as by the English list. */
  lemma ListTextOfTwo(names: seq<string>)
    requires |names| == 2
    ensures ListText(names, 2) == EnglishList(names)
  {
    assert ListText(names, 1) == names[0] + " and ";
  }

  /** The English list of three or more names, unfolded down to its last two names. */
  lemma EnglishListOfMany(names: seq<string>)
    requires |names| >= 3
    ensures EnglishList(names) == CommaList(names[..|names| - 2]) + ", " + names[|names| - 2] + " and " + names[|names| - 1]
  {
    var n := |names|;
    var front := names[..n - 1];
    assert front[..n - 2] == names[..n - 2];
    assert CommaList(front) == CommaList(names[..n - 2]) + ", " + names[n - 2];
  }

  /** The loop's full text for three or more names, unfolded down to its last two names. */
  lemma ListTextOfMany(names: seq<string>)
    requires |names| >= 3
    ensures ListText(names, |names|) == CommaList(names[..|names| - 2]) + ", " + names[|names| - 2] + " and " + names[|names| - 1]
  {
    var n := |names|;
    ListTextBeforeLast(names, n - 2);
    assert ListText(names, n - 1) == CommaList(names[..n - 2]) + ", " + names[n - 2] + " and ";
  }

  /** A generated quest whose category has enough items asks for exactly `itemCount` of them. */
  lemma GeneratedTarget(cat: FoodType, count: int, choose: nat -> nat)
    requires 0 < count <= |ItemCodes(cat)|
    ensures |Take(ShuffleBy(ItemCodes(cat), choose), count)| == count
  {
  }
}

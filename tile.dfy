/**
 * `Tile` and the removal event of a spawned `Food`. A tile holds at most one
 * food reference; every food placed on a tile carries a callback that clears
 * that tile when the food leaves play.
 */
module Tiles {

  /** A prefab foods are spawned from (the pool's template object). */
  datatype Prefab = Prefab(id: nat)

  /**
   * A spawned food: the prefab it came from and its `OnRemoved` event, held
   * as the tiles whose callbacks are subscribed to it, in subscription order.
   */
  class Food {
    const prefab: Prefab
    var onRemoved: seq<Tile>

    /** A food fresh from the pool has no subscribers. */
    constructor (prefab: Prefab)
      ensures this.prefab == prefab && onRemoved == []
    {
      this.prefab := prefab;
      onRemoved := [];
    }

    /**
     * `OnRemoved?.Invoke()`: every subscribed callback runs, and each clears
     * its own tile, whatever food that tile holds by then.
     */
    method InvokeOnRemoved()
      modifies set t | t in onRemoved
      ensures forall t :: t in onRemoved ==> t.IsEmpty()
    {
      for i := 0 to |onRemoved|
        invariant forall k :: 0 <= k < i ==> onRemoved[k].IsEmpty()
      {
        // the lambda `AddFood` subscribed: `foodOnTile = null`
        onRemoved[i].foodOnTile := null;
      }
    }
  }

  class Tile {
    var foodOnTile: Food?

    /** A new tile is empty. */
    constructor ()
      ensures IsEmpty()
    {
      foodOnTile := null;
    }

    /** `IsEmpty`: no food reference is stored. */
    predicate IsEmpty()
      reads this
    {
      foodOnTile == null
    }

    /**
     * `AddFood`: the food is stored, replacing any previous one, and a
     * callback clearing this tile is subscribed to the food's removal event.
     */
    method AddFood(food: Food)
      modifies this, food
      ensures foodOnTile == food && !IsEmpty()
      ensures food.onRemoved == old(food.onRemoved) + [this]
    {
      foodOnTile := food;
      food.onRemoved := food.onRemoved + [this];
    }

    /** `RemoveFood`: the tile is emptied. */
    method RemoveFood()
      modifies this
      ensures IsEmpty()
    {
      foodOnTile := null;
    }
  }

  /**
   * The callback does not check which food the tile holds: when a second
   * food is placed on a tile (two foods fresh from the pool) and the first
   * one then leaves play, the tile is reported empty although the second
   * food is still on it.
   */
  method StaleCallbackEmptiesTile(tile: Tile, first: Food, second: Food)
    requires first != second && first.onRemoved == [] && second.onRemoved == []
    modifies tile, first, second
    ensures first.onRemoved == [tile] && second.onRemoved == [tile]
    ensures tile.IsEmpty()
  {
    tile.AddFood(first);
    tile.AddFood(second);
    assert tile.foodOnTile == second;
    first.InvokeOnRemoved();
  }
}

/**
 * `FoodSpawner`: the session's prefab list, the list of empty tiles, the
 * spawned foods and the good/bad food counters. `Random.Range(0, n)` for
 * the draw numbered `k` in one call is taken as `draws(k) % n`; a draw from
 * an empty prefab list indexes position 0 of it and throws, which ends the
 * auto-spawn coroutine.
 */
module FoodSpawning {
  import opened Seqs
  import opened Tiles

  /** The underlying values of `EFoodType.Fruit` and `EFoodType.FastFood`. */
  const FruitCode: int := 1
  const FastFoodCode: int := 2

  /** `List.RemoveAt(i)`. */
  function RemoveAt<T>(s: seq<T>, i: int): (r: seq<T>)
    requires 0 <= i < |s|
    ensures |r| == |s| - 1
    ensures forall x :: x in r ==> x in s
  {
    s[..i] + s[i + 1..]
  }

  /**
   * `SetupFoodPrefabsForSession`: the fruit prefabs for a fruit session, the
   * fast-food prefabs for a fast-food session, none for cake or any other
   * value.
   */
  function PrefabsFor(code: int, fruits: seq<Prefab>, fastFoods: seq<Prefab>): (r: seq<Prefab>)
    ensures code == FruitCode ==> r == fruits
    ensures code == FastFoodCode ==> r == fastFoods
    ensures code != FruitCode && code != FastFoodCode ==> r == []
  {
    if code == FruitCode then fruits else if code == FastFoodCode then fastFoods else []
  }

  /**
   * How many times `SpawnFood`'s loop runs from a count of `count` with
   * `empty` empty tiles: until the count reaches `max` or the tiles run out.
   */
  function GoodSpawnCount(count: int, max: int, empty: nat): (n: nat)
    ensures n <= empty
    ensures count >= max ==> n == 0
    ensures count < max ==> count + n == max || n == empty
    ensures n == 0 || count + n <= max
  {
    if count >= max then 0 else if max - count < empty then max - count else empty
  }

  /** The empty-tile list after `n` placements, placement `k` taking the tile at `draws(k) % |list|`. */
  function LeftAfter(empty: seq<Tile>, n: nat, draws: nat -> nat): (r: seq<Tile>)
    requires n <= |empty|
    ensures |r| == |empty| - n
    decreases n
  {
    if n == 0 then empty
    else
      var before := LeftAfter(empty, n - 1, draws);
      RemoveAt(before, draws(n - 1) % |before|)
  }

  /** The tiles those `n` placements fill, in order. */
  function Filled(empty: seq<Tile>, n: nat, draws: nat -> nat): (r: seq<Tile>)
    requires n <= |empty|
    ensures |r| == n
    decreases n
  {
    if n == 0 then []
    else
      var before := LeftAfter(empty, n - 1, draws);
      Filled(empty, n - 1, draws) + [before[draws(n - 1) % |before|]]
  }

  /** Every tile left listed came from the list. */
  lemma {:induction false} LeftFromList(empty: seq<Tile>, n: nat, draws: nat -> nat, j: int)
    requires n <= |empty| && 0 <= j < |empty| - n
    ensures LeftAfter(empty, n, draws)[j] in empty
    decreases n
  {
    if n > 0 {
      var before := LeftAfter(empty, n - 1, draws);
      var i := draws(n - 1) % |before|;
      var j' := if j < i then j else j + 1;
      assert LeftAfter(empty, n, draws)[j] == before[j'];
      LeftFromList(empty, n - 1, draws, j');
    }
  }

  /** Every filled tile came from the list. */
  lemma {:induction false} FilledFromList(empty: seq<Tile>, n: nat, draws: nat -> nat, k: int)
    requires n <= |empty| && 0 <= k < n
    ensures Filled(empty, n, draws)[k] in empty
    decreases n
  {
    var before := LeftAfter(empty, n - 1, draws);
    if k < n - 1 {
      assert Filled(empty, n, draws)[k] == Filled(empty, n - 1, draws)[k];
      FilledFromList(empty, n - 1, draws, k);
    } else {
      LeftFromList(empty, n - 1, draws, draws(n - 1) % |before|);
    }
  }

  /**
   * From a list without repetitions, the placements fill no tile twice, and
   * no filled tile stays listed.
   */
  lemma {:induction false} PlacementsPartition(empty: seq<Tile>, n: nat, draws: nat -> nat)
    requires n <= |empty| && Distinct(empty)
    ensures Distinct(Filled(empty, n, draws)) && Distinct(LeftAfter(empty, n, draws))
    ensures forall t :: t in Filled(empty, n, draws) ==> t !in LeftAfter(empty, n, draws)
  {
    if n > 0 {
      PlacementsPartition(empty, n - 1, draws);
      var before := LeftAfter(empty, n - 1, draws);
      PlacementStep(Filled(empty, n - 1, draws), before, draws(n - 1) % |before|);
    }
  }

  /** One placement moves one listed tile to the filled ones. */
  lemma PlacementStep(filled: seq<Tile>, before: seq<Tile>, i: int)
    requires 0 <= i < |before|
    requires Distinct(filled) && Distinct(before) && forall t :: t in filled ==> t !in before
    ensures Distinct(filled + [before[i]]) && Distinct(RemoveAt(before, i))
    ensures forall t :: t in filled + [before[i]] ==> t !in RemoveAt(before, i)
  {
    assert before[i] !in filled;
    DistinctRemove(before, i);
    DistinctConcat(filled, [before[i]]);
  }

  /** `CheckEmptyTiles` after the first `|ts|` tiles: each empty tile not yet listed is appended. */
  function CheckedEmptyTiles(listed: seq<Tile>, ts: seq<Tile>): (r: seq<Tile>)
    reads ts
    decreases |ts|
  {
    if ts == [] then listed
    else
      var before := CheckedEmptyTiles(listed, ts[..|ts| - 1]);
      var t := ts[|ts| - 1];
      if t.IsEmpty() && t !in before then before + [t] else before
  }

  /**
   * `CheckEmptyTiles` only appends, lists exactly the tiles already listed
   * and the empty tiles of the map, and keeps the list free of repetitions.
   */
  lemma {:induction false} CheckedEmptyTilesSpec(listed: seq<Tile>, ts: seq<Tile>)
    ensures listed <= CheckedEmptyTiles(listed, ts)
    ensures forall t :: t in CheckedEmptyTiles(listed, ts) <==> t in listed || (t in ts && t.IsEmpty())
    ensures Distinct(listed) ==> Distinct(CheckedEmptyTiles(listed, ts))
  {
    if ts != [] {
      var init := ts[..|ts| - 1];
      CheckedEmptyTilesSpec(listed, init);
      assert ts == init + [ts[|ts| - 1]];
      var before := CheckedEmptyTiles(listed, init);
      var t := ts[|ts| - 1];
      if t.IsEmpty() && t !in before && Distinct(listed) {
        DistinctConcat(before, [t]);
      }
    }
  }

  /**
   * Every tile of `empty` outside the first `n` filled ones still holds
   * what `held` records for it.
   */
  ghost predicate Kept(empty: seq<Tile>, held: seq<Food?>, n: nat, draws: nat -> nat)
    requires n <= |empty|
    reads empty
  {
    |held| == |empty|
    && forall k :: 0 <= k < |empty| && empty[k] !in Filled(empty, n, draws) ==> empty[k].foodOnTile == held[k]
  }

  /** What one auto-spawn step places: a good food, a bad food, and whether an exception ended it. */
  datatype StepOutcome = StepOutcome(good: bool, bad: bool, stopped: bool)

  /**
   * One pass of the auto-spawn loop after `CheckEmptyTiles`, with `empty`
   * tiles listed: a good food when under its cap and a tile is free, then a
   * bad food when under its cap and a tile is still free. An empty prefab
   * list at a due placement throws and ends the loop.
   */
  function AutoSpawnOutcome(goodCount: int, maxGood: int, badCount: int, maxBad: int, empty: nat,
                            goodPrefabs: nat, badPrefabs: nat): (o: StepOutcome)
    ensures o.good ==> goodCount < maxGood && empty >= 1 && goodPrefabs > 0
    ensures o.bad ==> badCount < maxBad && empty >= (if o.good then 2 else 1) && badPrefabs > 0
    ensures goodCount < maxGood && empty >= 1 && goodPrefabs > 0 ==> o.good
    ensures o.stopped <==>
      (goodCount < maxGood && empty >= 1 && goodPrefabs == 0)
      || (badCount < maxBad && empty >= (if o.good then 2 else 1) && badPrefabs == 0)
    ensures o.stopped ==> !o.bad
  {
    var goodDue := goodCount < maxGood && empty > 0;
    if goodDue && goodPrefabs == 0 then StepOutcome(false, false, true)
    else
      var left := if goodDue then empty - 1 else empty;
      var badDue := badCount < maxBad && left > 0;
      StepOutcome(goodDue, badDue && badPrefabs > 0, badDue && badPrefabs == 0)
  }

  /** The payload of a removal event: a `Food` object, or anything else (such as a collection record). */
  datatype Payload = FoodObject(food: Food) | NotFood

  class FoodSpawner {
    const tiles: seq<Tile>
    const fruitsPrefabs: seq<Prefab>
    const fastFoodPrefabs: seq<Prefab>
    const badFoodPrefabs: seq<Prefab>
    const maxGoodFoodToSpawn: int
    const maxBadFoodToSpawn: int

    var currentGoodFoodCount: int
    var currentBadFoodCount: int
    var emptyTiles: seq<Tile>
    var foodPrefabs: seq<Prefab>
    var spawnedFoods: seq<Food>
    /** The underlying value of the session's `EFoodType`; 0 before any is chosen. */
    var sessionFoodType: int
    var foodTypeInitialized: bool

    /** The empty-tile list never lists a tile twice. */
    ghost predicate Valid()
      reads this
    {
      Distinct(emptyTiles)
    }

    /** A spawner before `Start`: no session type, no prefabs, no tiles listed, nothing spawned. */
    constructor (tiles: seq<Tile>, fruits: seq<Prefab>, fastFoods: seq<Prefab>, bads: seq<Prefab>,
                 maxGood: int, maxBad: int)
      ensures Valid()
      ensures this.tiles == tiles && fruitsPrefabs == fruits && fastFoodPrefabs == fastFoods
      ensures badFoodPrefabs == bads && maxGoodFoodToSpawn == maxGood && maxBadFoodToSpawn == maxBad
      ensures currentGoodFoodCount == 0 && currentBadFoodCount == 0
      ensures emptyTiles == [] && foodPrefabs == [] && spawnedFoods == []
      ensures sessionFoodType == 0 && !foodTypeInitialized
    {
      this.tiles := tiles;
      fruitsPrefabs := fruits;
      fastFoodPrefabs := fastFoods;
      badFoodPrefabs := bads;
      maxGoodFoodToSpawn := maxGood;
      maxBadFoodToSpawn := maxBad;
      currentGoodFoodCount := 0;
      currentBadFoodCount := 0;
      emptyTiles := [];
      foodPrefabs := [];
      spawnedFoods := [];
      sessionFoodType := 0;
      foodTypeInitialized := false;
    }

    /**
     * The spawner after `n` of `SpawnFood`'s placements from the list `empty`,
     * the count `count` and the spawned list `base`: the list lost the filled
     * tiles, one food per placement from the drawn prefab was appended, and
     * the good count rose by `n`.
     */
    ghost predicate Placed(empty: seq<Tile>, count: int, base: seq<Food>, n: nat,
                           tileDraws: nat -> nat, prefabDraws: nat -> nat)
      reads this
    {
      n <= |empty|
      && emptyTiles == LeftAfter(empty, n, tileDraws)
      && currentGoodFoodCount == count + n
      && |spawnedFoods| == |base| + n
      && spawnedFoods[..|base|] == base
      && (n > 0 ==> |foodPrefabs| > 0)
      && forall k :: 0 <= k < n ==> spawnedFoods[|base| + k].prefab == foodPrefabs[prefabDraws(k) % |foodPrefabs|]
    }

    /** The fields a good-food placement leaves alone. */
    ghost predicate Untouched(bad: int, prefabs: seq<Prefab>, code: int, initialized: bool)
      reads this
    {
      currentBadFoodCount == bad && foodPrefabs == prefabs && sessionFoodType == code && foodTypeInitialized == initialized
    }

    /** Each of those `n` filled tiles holds its food, and that food's removal event clears that tile only. */
    ghost predicate Holding(empty: seq<Tile>, base: seq<Food>, n: nat, tileDraws: nat -> nat)
      requires n <= |empty| && |spawnedFoods| == |base| + n
      reads this, spawnedFoods, Filled(empty, n, tileDraws)
    {
      forall k :: 0 <= k < n ==>
        Filled(empty, n, tileDraws)[k].foodOnTile == spawnedFoods[|base| + k]
        && spawnedFoods[|base| + k].onRemoved == [Filled(empty, n, tileDraws)[k]]
    }

    /**
     * One placement, as each spawning block does it: a fresh food from the
     * prefab goes on the listed tile at `index`, that tile leaves the list
     * and the food is recorded.
     */
    method Place(index: int, prefab: Prefab) returns (food: Food)
      requires 0 <= index < |emptyTiles|
      modifies this, emptyTiles[index]
      ensures fresh(food) && food.prefab == prefab && food.onRemoved == [old(emptyTiles[index])]
      ensures old(emptyTiles[index]).foodOnTile == food
      ensures emptyTiles == RemoveAt(old(emptyTiles), index)
      ensures spawnedFoods == old(spawnedFoods) + [food]
      ensures currentGoodFoodCount == old(currentGoodFoodCount) && currentBadFoodCount == old(currentBadFoodCount)
      ensures foodPrefabs == old(foodPrefabs) && sessionFoodType == old(sessionFoodType)
      ensures foodTypeInitialized == old(foodTypeInitialized)
    {
      var tile := emptyTiles[index];
      food := new Food(prefab);
      tile.AddFood(food);
      emptyTiles := RemoveAt(emptyTiles, index);
      spawnedFoods := spawnedFoods + [food];
    }

    /**
     * `SpawnFood`: nothing unless a session type is set and prefabs exist;
     * otherwise foods are placed on drawn empty tiles until the good count
     * reaches its cap or no empty tile is left. Each filled tile holds its
     * food, whose removal event clears that tile.
     */
    method SpawnFood(tileDraws: nat -> nat, prefabDraws: nat -> nat) returns (n: nat)
      requires Valid()
      modifies this, emptyTiles
      ensures Valid()
      ensures n == if !old(foodTypeInitialized) || |old(foodPrefabs)| == 0 then 0
                   else GoodSpawnCount(old(currentGoodFoodCount), maxGoodFoodToSpawn, |old(emptyTiles)|)
      ensures Placed(old(emptyTiles), old(currentGoodFoodCount), old(spawnedFoods), n, tileDraws, prefabDraws)
      ensures Holding(old(emptyTiles), old(spawnedFoods), n, tileDraws)
      ensures forall t :: t in old(emptyTiles) && t !in Filled(old(emptyTiles), n, tileDraws) ==> t.foodOnTile == old(t.foodOnTile)
      ensures forall k :: |old(spawnedFoods)| <= k < |spawnedFoods| ==> fresh(spawnedFoods[k])
      ensures currentBadFoodCount == old(currentBadFoodCount) && foodPrefabs == old(foodPrefabs)
      ensures sessionFoodType == old(sessionFoodType) && foodTypeInitialized == old(foodTypeInitialized)
    {
      ghost var empty := emptyTiles;
      ghost var held := seq(|empty|, k requires 0 <= k < |empty| reads empty => empty[k].foodOnTile);
      if !foodTypeInitialized || |foodPrefabs| == 0 {
        return 0;
      }
      n := SpawnWhileDue(empty, currentGoodFoodCount, spawnedFoods, held, tileDraws, prefabDraws);
      forall t | t in empty && t !in Filled(empty, n, tileDraws)
        ensures t.foodOnTile == old(t.foodOnTile)
      {
        var k :| 0 <= k < |empty| && empty[k] == t;
      }
    }

    /**
     * The loop of `SpawnFood`: while the good count is under its cap and a
     * tile is listed, one more placement.
     */
    method SpawnWhileDue(ghost empty: seq<Tile>, ghost count: int, ghost base: seq<Food>, ghost held: seq<Food?>,
                         tileDraws: nat -> nat, prefabDraws: nat -> nat) returns (n: nat)
      requires Distinct(empty) && |foodPrefabs| > 0
      requires Placed(empty, count, base, 0, tileDraws, prefabDraws) && Holding(empty, base, 0, tileDraws)
      requires Kept(empty, held, 0, tileDraws)
      modifies this, emptyTiles
      ensures n == GoodSpawnCount(count, maxGoodFoodToSpawn, |empty|)
      ensures Placed(empty, count, base, n, tileDraws, prefabDraws) && Holding(empty, base, n, tileDraws)
      ensures Kept(empty, held, n, tileDraws)
      ensures Distinct(emptyTiles)
      ensures forall k :: |base| <= k < |spawnedFoods| ==> fresh(spawnedFoods[k])
      ensures currentBadFoodCount == old(currentBadFoodCount) && foodPrefabs == old(foodPrefabs)
      ensures sessionFoodType == old(sessionFoodType) && foodTypeInitialized == old(foodTypeInitialized)
    {
      var i: nat := 0;
      while currentGoodFoodCount < maxGoodFoodToSpawn && |emptyTiles| > 0
        invariant i == 0 || count + i <= maxGoodFoodToSpawn
        invariant Placed(empty, count, base, i, tileDraws, prefabDraws)
        invariant Holding(empty, base, i, tileDraws)
        invariant Kept(empty, held, i, tileDraws)
        invariant forall k :: |base| <= k < |spawnedFoods| ==> fresh(spawnedFoods[k])
        invariant Untouched(old(currentBadFoodCount), old(foodPrefabs), old(sessionFoodType), old(foodTypeInitialized))
        decreases |emptyTiles|
      {
        LeftFromList(empty, i, tileDraws, tileDraws(i) % |emptyTiles|);
        SpawnOne(empty, count, base, held, i, tileDraws, prefabDraws);
        i := i + 1;
      }
      PlacementsPartition(empty, i, tileDraws);
      n := i;
    }

    /** One pass of `SpawnFood`'s loop body, carrying `Placed` and `Holding` from `i` to `i + 1` placements. */
    method SpawnOne(ghost empty: seq<Tile>, ghost count: int, ghost base: seq<Food>, ghost held: seq<Food?>, i: nat,
                    tileDraws: nat -> nat, prefabDraws: nat -> nat)
      requires Distinct(empty) && |foodPrefabs| > 0 && |emptyTiles| > 0
      requires Placed(empty, count, base, i, tileDraws, prefabDraws) && Holding(empty, base, i, tileDraws)
      requires Kept(empty, held, i, tileDraws)
      modifies this, emptyTiles[tileDraws(i) % |emptyTiles|]
      ensures Placed(empty, count, base, i + 1, tileDraws, prefabDraws) && Holding(empty, base, i + 1, tileDraws)
      ensures Kept(empty, held, i + 1, tileDraws)
      ensures fresh(spawnedFoods[|spawnedFoods| - 1]) && spawnedFoods[..|spawnedFoods| - 1] == old(spawnedFoods)
      ensures currentBadFoodCount == old(currentBadFoodCount) && foodPrefabs == old(foodPrefabs)
      ensures sessionFoodType == old(sessionFoodType) && foodTypeInitialized == old(foodTypeInitialized)
    {
      ghost var filled := Filled(empty, i, tileDraws);
      PlacementsPartition(empty, i, tileDraws);
      var index := tileDraws(i) % |emptyTiles|;
      ghost var tile := emptyTiles[index];
      assert tile !in filled;
      var food := Place(index, foodPrefabs[prefabDraws(i) % |foodPrefabs|]);
      currentGoodFoodCount := currentGoodFoodCount + 1;
      forall k | 0 <= k < i
        ensures filled[k].foodOnTile == spawnedFoods[|base| + k]
        ensures spawnedFoods[|base| + k].onRemoved == [filled[k]]
      {
        FilledFromList(empty, i, tileDraws, k);
        assert old(filled[k].foodOnTile) == old(spawnedFoods[|base| + k]);
        assert filled[k] != tile;
        assert filled[k].foodOnTile == old(filled[k].foodOnTile);
        assert spawnedFoods[|base| + k] == old(spawnedFoods[|base| + k]);
      }
      assert Filled(empty, i + 1, tileDraws) == filled + [tile];
      forall k | 0 <= k < |empty| && empty[k] !in Filled(empty, i + 1, tileDraws)
        ensures empty[k].foodOnTile == held[k]
      {
        assert empty[k] != tile && empty[k] !in filled;
      }
    }

    /**
     * `CheckEmptyTiles`: every tile of the map that is empty and not yet
     * listed is appended to the empty-tile list.
     */
    method CheckEmptyTiles()
      requires Valid()
      modifies this
      ensures Valid()
      ensures emptyTiles == old(CheckedEmptyTiles(emptyTiles, tiles))
      ensures currentGoodFoodCount == old(currentGoodFoodCount) && currentBadFoodCount == old(currentBadFoodCount)
      ensures spawnedFoods == old(spawnedFoods) && foodPrefabs == old(foodPrefabs)
      ensures sessionFoodType == old(sessionFoodType) && foodTypeInitialized == old(foodTypeInitialized)
    {
      ghost var listed := emptyTiles;
      for i := 0 to |tiles|
        invariant emptyTiles == CheckedEmptyTiles(listed, tiles[..i])
        invariant currentGoodFoodCount == old(currentGoodFoodCount) && currentBadFoodCount == old(currentBadFoodCount)
        invariant spawnedFoods == old(spawnedFoods) && foodPrefabs == old(foodPrefabs)
        invariant sessionFoodType == old(sessionFoodType) && foodTypeInitialized == old(foodTypeInitialized)
      {
        assert tiles[..i + 1][..i] == tiles[..i];
        var tile := tiles[i];
        if tile.IsEmpty() && tile !in emptyTiles {
          emptyTiles := emptyTiles + [tile];
        }
      }
      assert tiles[..|tiles|] == tiles;
      CheckedEmptyTilesSpec(listed, tiles);
    }

    /**
     * `InitializeWithFoodType`: the session type is set, the prefab list is
     * replaced by that type's prefabs, and foods are spawned only when the
     * good count is 0.
     */
    method InitializeWithFoodType(code: int, tileDraws: nat -> nat, prefabDraws: nat -> nat) returns (n: nat)
      requires Valid()
      modifies this, emptyTiles
      ensures Valid()
      ensures sessionFoodType == code && foodTypeInitialized
      ensures foodPrefabs == PrefabsFor(code, fruitsPrefabs, fastFoodPrefabs)
      ensures old(currentGoodFoodCount) != 0 ==> n == 0
      ensures old(currentGoodFoodCount) == 0 ==>
        n == (if |foodPrefabs| == 0 then 0 else GoodSpawnCount(0, maxGoodFoodToSpawn, |old(emptyTiles)|))
      ensures Placed(old(emptyTiles), old(currentGoodFoodCount), old(spawnedFoods), n, tileDraws, prefabDraws)
      ensures Holding(old(emptyTiles), old(spawnedFoods), n, tileDraws)
      ensures forall t :: t in old(emptyTiles) && t !in Filled(old(emptyTiles), n, tileDraws) ==> t.foodOnTile == old(t.foodOnTile)
      ensures currentBadFoodCount == old(currentBadFoodCount)
    {
      sessionFoodType := code;
      foodTypeInitialized := true;
      foodPrefabs := PrefabsFor(code, fruitsPrefabs, fastFoodPrefabs);
      n := 0;
      if currentGoodFoodCount == 0 {
        n := SpawnFood(tileDraws, prefabDraws);
      }
    }

    /** The listed tile a roll of `roll` draws, as a frame. */
    function DrawnTile(roll: nat): set<object>
      reads this
    {
      if |emptyTiles| > 0 then {emptyTiles[roll % |emptyTiles|]} else {}
    }

    /**
     * A placement block of the auto-spawn loop for a counter at `count`
     * under `cap` and the prefabs `prefabs`: when the counter is under its
     * cap and a tile is listed, either the prefab list is empty and the
     * block throws, or a food from the drawn prefab goes on the drawn tile.
     * The caller raises the counter.
     */
    method SpawnIfDue(count: int, cap: int, prefabs: seq<Prefab>, tileRoll: nat, prefabRoll: nat)
      returns (placed: bool, threw: bool)
      requires Distinct(emptyTiles)
      modifies this, DrawnTile(tileRoll)
      ensures Distinct(emptyTiles)
      ensures placed <==> count < cap && |old(emptyTiles)| > 0 && |prefabs| > 0
      ensures threw <==> count < cap && |old(emptyTiles)| > 0 && |prefabs| == 0
      ensures !placed ==> emptyTiles == old(emptyTiles) && spawnedFoods == old(spawnedFoods)
      ensures !placed ==> unchanged(old(DrawnTile(tileRoll)))
      ensures placed ==>
        var tile := old(emptyTiles[tileRoll % |emptyTiles|]);
        && emptyTiles == RemoveAt(old(emptyTiles), tileRoll % |old(emptyTiles)|)
        && tile !in emptyTiles
        && |spawnedFoods| == |old(spawnedFoods)| + 1 && spawnedFoods[..|old(spawnedFoods)|] == old(spawnedFoods)
        && fresh(spawnedFoods[|old(spawnedFoods)|])
        && spawnedFoods[|old(spawnedFoods)|].prefab == prefabs[prefabRoll % |prefabs|]
        && spawnedFoods[|old(spawnedFoods)|].onRemoved == [tile]
        && tile.foodOnTile == spawnedFoods[|old(spawnedFoods)|]
      ensures currentGoodFoodCount == old(currentGoodFoodCount) && currentBadFoodCount == old(currentBadFoodCount)
      ensures foodPrefabs == old(foodPrefabs) && sessionFoodType == old(sessionFoodType)
      ensures foodTypeInitialized == old(foodTypeInitialized)
    {
      placed, threw := false, false;
      if count < cap && |emptyTiles| > 0 {
        if |prefabs| == 0 {
          return false, true;
        }
        var index := tileRoll % |emptyTiles|;
        DistinctRemove(emptyTiles, index);
        var food := Place(index, prefabs[prefabRoll % |prefabs|]);
        placed := true;
      }
    }

    /**
     * The two placement blocks of one pass, on the list `CheckEmptyTiles`
     * has just rebuilt: a good food under its cap, unless the good prefab
     * list is empty (then the pass stops), then a bad food under its cap.
     */
    method SpawnGoodThenBad(goodTileRoll: nat, goodPrefabRoll: nat, badTileRoll: nat, badPrefabRoll: nat)
      returns (stopped: bool)
      requires Valid()
      modifies this, emptyTiles
      ensures Valid()
      ensures
        var e := old(emptyTiles);
        var o := AutoSpawnOutcome(old(currentGoodFoodCount), maxGoodFoodToSpawn, old(currentBadFoodCount),
                                  maxBadFoodToSpawn, |e|, |foodPrefabs|, |badFoodPrefabs|);
        var e1 := if o.good then RemoveAt(e, goodTileRoll % |e|) else e;
        && stopped == o.stopped
        && currentGoodFoodCount == old(currentGoodFoodCount) + (if o.good then 1 else 0)
        && currentBadFoodCount == old(currentBadFoodCount) + (if o.bad then 1 else 0)
        && emptyTiles == (if o.bad then RemoveAt(e1, badTileRoll % |e1|) else e1)
        && |spawnedFoods| == |old(spawnedFoods)| + (if o.good then 1 else 0) + (if o.bad then 1 else 0)
        && old(spawnedFoods) <= spawnedFoods
        && (o.good ==>
              spawnedFoods[|old(spawnedFoods)|].prefab == foodPrefabs[goodPrefabRoll % |foodPrefabs|]
              && e[goodTileRoll % |e|].foodOnTile == spawnedFoods[|old(spawnedFoods)|]
              && spawnedFoods[|old(spawnedFoods)|].onRemoved == [e[goodTileRoll % |e|]])
        && (o.bad ==>
              spawnedFoods[|spawnedFoods| - 1].prefab == badFoodPrefabs[badPrefabRoll % |badFoodPrefabs|]
              && e1[badTileRoll % |e1|].foodOnTile == spawnedFoods[|spawnedFoods| - 1]
              && spawnedFoods[|spawnedFoods| - 1].onRemoved == [e1[badTileRoll % |e1|]])
        && forall t :: t in e && !(o.good && t == e[goodTileRoll % |e|]) && !(o.bad && t == e1[badTileRoll % |e1|]) ==>
             t.foodOnTile == old(t.foodOnTile)
      ensures foodPrefabs == old(foodPrefabs) && sessionFoodType == old(sessionFoodType)
      ensures foodTypeInitialized == old(foodTypeInitialized)
    {
      ghost var e := emptyTiles;
      ghost var base := spawnedFoods;
      if |emptyTiles| > 0 {
        assert emptyTiles[goodTileRoll % |emptyTiles|] in e;
      }
      var good, badPlaced;
      good, stopped := SpawnIfDue(currentGoodFoodCount, maxGoodFoodToSpawn, foodPrefabs, goodTileRoll, goodPrefabRoll);
      if stopped {
        return;
      }
      if good {
        currentGoodFoodCount := currentGoodFoodCount + 1;
      }
      ghost var e1 := emptyTiles;
      ghost var goodFood := if good then spawnedFoods[|base|] else null;
      ghost var goodTile := if good then e[goodTileRoll % |e|] else null;
      if |emptyTiles| > 0 {
        assert emptyTiles[badTileRoll % |emptyTiles|] in e;
        assert good ==> emptyTiles[badTileRoll % |emptyTiles|] != goodTile;
      }
      badPlaced, stopped := SpawnIfDue(currentBadFoodCount, maxBadFoodToSpawn, badFoodPrefabs, badTileRoll, badPrefabRoll);
      if badPlaced {
        currentBadFoodCount := currentBadFoodCount + 1;
      }
    }

    /**
     * One pass of `IECheckSpawnFood`'s loop (the waits left out): nothing
     * until a session type is set; then `CheckEmptyTiles`, at most one good
     * food and at most one bad food, each under its cap and on a drawn empty
     * tile. `stopped` is the exception an empty prefab list raises. No tile
     * but the one or two drawn ones changes.
     */
    method AutoSpawnStep(goodTileRoll: nat, goodPrefabRoll: nat, badTileRoll: nat, badPrefabRoll: nat)
      returns (stopped: bool)
      requires Valid()
      modifies this, emptyTiles, tiles
      ensures Valid()
      ensures !old(foodTypeInitialized) ==>
        && !stopped && emptyTiles == old(emptyTiles) && spawnedFoods == old(spawnedFoods)
        && currentGoodFoodCount == old(currentGoodFoodCount) && currentBadFoodCount == old(currentBadFoodCount)
        && forall t :: t in tiles || t in old(emptyTiles) ==> t.foodOnTile == old(t.foodOnTile)
      ensures old(foodTypeInitialized) ==>
        var e := old(CheckedEmptyTiles(emptyTiles, tiles));
        var o := AutoSpawnOutcome(old(currentGoodFoodCount), maxGoodFoodToSpawn, old(currentBadFoodCount),
                                  maxBadFoodToSpawn, |e|, |foodPrefabs|, |badFoodPrefabs|);
        var e1 := if o.good then RemoveAt(e, goodTileRoll % |e|) else e;
        && stopped == o.stopped
        && currentGoodFoodCount == old(currentGoodFoodCount) + (if o.good then 1 else 0)
        && currentBadFoodCount == old(currentBadFoodCount) + (if o.bad then 1 else 0)
        && emptyTiles == (if o.bad then RemoveAt(e1, badTileRoll % |e1|) else e1)
        && |spawnedFoods| == |old(spawnedFoods)| + (if o.good then 1 else 0) + (if o.bad then 1 else 0)
        && old(spawnedFoods) <= spawnedFoods
        && (o.good ==>
              spawnedFoods[|old(spawnedFoods)|].prefab == foodPrefabs[goodPrefabRoll % |foodPrefabs|]
              && e[goodTileRoll % |e|].foodOnTile == spawnedFoods[|old(spawnedFoods)|]
              && spawnedFoods[|old(spawnedFoods)|].onRemoved == [e[goodTileRoll % |e|]])
        && (o.bad ==>
              spawnedFoods[|spawnedFoods| - 1].prefab == badFoodPrefabs[badPrefabRoll % |badFoodPrefabs|]
              && e1[badTileRoll % |e1|].foodOnTile == spawnedFoods[|spawnedFoods| - 1]
              && spawnedFoods[|spawnedFoods| - 1].onRemoved == [e1[badTileRoll % |e1|]])
        && forall t :: (t in tiles || t in old(emptyTiles)) && !(o.good && t == e[goodTileRoll % |e|])
                         && !(o.bad && t == e1[badTileRoll % |e1|]) ==>
             t.foodOnTile == old(t.foodOnTile)
      ensures foodPrefabs == old(foodPrefabs) && sessionFoodType == old(sessionFoodType)
      ensures foodTypeInitialized == old(foodTypeInitialized)
    {
      stopped := false;
      if !foodTypeInitialized {
        return;
      }
      ghost var listed := emptyTiles;
      CheckEmptyTiles();
      CheckedEmptyTilesSpec(listed, tiles);
      assert forall i :: 0 <= i < |emptyTiles| ==> emptyTiles[i] in old(emptyTiles) || emptyTiles[i] in tiles;
      stopped := SpawnGoodThenBad(goodTileRoll, goodPrefabRoll, badTileRoll, badPrefabRoll);
    }

    /**
     * `OnRemoveFood`: the payload leaves the spawned list (its first
     * occurrence) only when it is a `Food`; the good count drops in every
     * case.
     */
    method OnRemoveFood(data: Payload)
      modifies this
      ensures spawnedFoods == if data.FoodObject? then RemoveFirst(old(spawnedFoods), data.food) else old(spawnedFoods)
      ensures currentGoodFoodCount == old(currentGoodFoodCount) - 1
      ensures currentBadFoodCount == old(currentBadFoodCount) && emptyTiles == old(emptyTiles)
      ensures foodPrefabs == old(foodPrefabs) && sessionFoodType == old(sessionFoodType)
      ensures foodTypeInitialized == old(foodTypeInitialized)
    {
      if data.FoodObject? {
        spawnedFoods := RemoveFirst(spawnedFoods, data.food);
      }
      currentGoodFoodCount := currentGoodFoodCount - 1;
    }

    /** `OnRemoveBadFood`: the same for the bad count. */
    method OnRemoveBadFood(data: Payload)
      modifies this
      ensures spawnedFoods == if data.FoodObject? then RemoveFirst(old(spawnedFoods), data.food) else old(spawnedFoods)
      ensures currentBadFoodCount == old(currentBadFoodCount) - 1
      ensures currentGoodFoodCount == old(currentGoodFoodCount) && emptyTiles == old(emptyTiles)
      ensures foodPrefabs == old(foodPrefabs) && sessionFoodType == old(sessionFoodType)
      ensures foodTypeInitialized == old(foodTypeInitialized)
    {
      if data.FoodObject? {
        spawnedFoods := RemoveFirst(spawnedFoods, data.food);
      }
      currentBadFoodCount := currentBadFoodCount - 1;
    }
  }
}

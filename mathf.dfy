/** Unity's integer `Mathf.Clamp`. */
module Mathf {

  /**
   * `Mathf.Clamp(value, min, max)`: `min` when below it, else `max` when above
   * it, else the value; with `max < min` the checks still run in that order.
   */
  function Clamp(value: int, min: int, max: int): (r: int)
    ensures min <= max ==> min <= r <= max
    ensures min <= value <= max ==> r == value
    ensures r == value || r == min || r == max
  {
    if value < min then min else if value > max then max else value
  }
}

/** The center of a bounding box, as `PersonTracker.calculate_center` computes it. */
module Geometry {
  import opened Wrappers
  import opened Numbers

  /** A pixel position `(x, y)`. */
  datatype Point = Point(x: int, y: int)

  /** `calculate_center(bbox)`: unpacks `x, y, w, h` (which fails unless the list has exactly four
      coordinates) and returns `(int(x + w / 2), int(y + h / 2))`, where `/` is true division and
      `int` truncates toward zero. The result is the half-sum `2x + w` over two, rounded toward zero. */
  function Center(bbox: seq<int>): (c: Option<Point>)
    ensures c.Some? <==> |bbox| == 4
    ensures c.Some? ==> c.value.x == DivTowardZero(2 * bbox[0] + bbox[2], 2)
    ensures c.Some? ==> c.value.y == DivTowardZero(2 * bbox[1] + bbox[3], 2)
  {
    if |bbox| != 4 then None
    else
      var x, y, w, h := bbox[0], bbox[1], bbox[2], bbox[3];
      HalfSum(x, w);
      HalfSum(y, h);
      Some(Point(Trunc(x as real + w as real / 2.0), Trunc(y as real + h as real / 2.0)))
  }

  lemma HalfSum(x: int, w: int)
    ensures Trunc(x as real + w as real / 2.0) == DivTowardZero(2 * x + w, 2)
  {
    assert x as real + w as real / 2.0 == (2 * x + w) as real / 2.0;
    TruncHalf(2 * x + w);
  }

  /** For non-negative coordinates the center is `x + w // 2`, `y + h // 2`. */
  lemma CenterOfNonNegative(x: int, y: int, w: int, h: int)
    requires 0 <= x && 0 <= y && 0 <= w && 0 <= h
    ensures Center([x, y, w, h]) == Some(Point(x + w / 2, y + h / 2))
  {
    var c := Center([x, y, w, h]).value;
    assert c.x == (2 * x + w) / 2;
    assert c.y == (2 * y + h) / 2;
  }

  /** A box with non-negative width and height has its center inside it, edges included. */
  lemma CenterInsideBox(x: int, y: int, w: int, h: int)
    requires 0 <= w && 0 <= h
    ensures var c := Center([x, y, w, h]).value;
      x <= c.x <= x + w && y <= c.y <= y + h
  {
    var c := Center([x, y, w, h]).value;
    HalfBetween(x, w);
    HalfBetween(y, h);
  }

  lemma HalfBetween(x: int, w: int)
    requires 0 <= w
    ensures x <= DivTowardZero(2 * x + w, 2) <= x + w
  {
    var q := DivTowardZero(2 * x + w, 2);
    if 2 * x + w >= 0 {
      assert 2 * q <= 2 * x + w < 2 * q + 2;
    } else {
      assert 2 * (-q) <= -(2 * x + w) < 2 * (-q) + 2;
    }
  }

  /** Truncation, not flooring: at `x = -3, w = 1` the center is `-2`, whereas the formula
      `x + w // 2` for non-negative boxes would give `-3 + 0 = -3`. */
  lemma CenterRoundsTowardZero()
    ensures Center([-3, -3, 1, 1]) == Some(Point(-2, -2))
  {
  }
}

/** Falling obstacles: their record, the score value derived from their size,
    and their creation from three uniform random draws. */
module Obstacles {
  import opened Geometry

  const MIN_SIZE: real := 20.0
  const MAX_SIZE: real := 60.0
  /** Number of asteroid pictures an obstacle may show. */
  const IMAGE_COUNT: int := 4

  /** A falling obstacle; image is an index into the asteroid pictures. */
  datatype Obstacle = Obstacle(x: real, y: real, width: real, height: real, scoreValue: int, image: int)
  {
    function Bounds(): Box {
      Box(x, y, width, height)
    }
  }

  /** The host's rounding to the nearest integer, halves rounded up. */
  function Round(v: real): (r: int)
    ensures r as real - 0.5 <= v < r as real + 0.5
  {
    (v + 0.5).Floor
  }

  /** Points for letting an obstacle of the given size pass: smaller is worth more. */
  function ScoreValue(size: real): int {
    Round((MAX_SIZE - size) * 10.0)
  }

  /** Sizes that obstacle creation can draw are worth between 0 and 400 points. */
  lemma ScoreValueRange(size: real)
    requires MIN_SIZE <= size < MAX_SIZE
    ensures 0 <= ScoreValue(size) <= 400
  {
  }

  /** A larger obstacle is never worth more than a smaller one. */
  lemma ScoreValueAntitone(small: real, large: real)
    requires small <= large
    ensures ScoreValue(large) <= ScoreValue(small)
  {
  }

  /** The decrease is not strict: two different sizes can share a value. */
  lemma ScoreValueNotStrict()
    ensures ScoreValue(20.0) == ScoreValue(20.01) == 400
  {
  }

  /** The three values in [0, 1) that obstacle creation draws: one for the
      size, one for the horizontal position, one for the picture. */
  datatype Draws = Draws(size: real, position: real, image: real)
  {
    predicate Valid() {
      0.0 <= size < 1.0 && 0.0 <= position < 1.0 && 0.0 <= image < 1.0
    }
  }

  /** The obstacle that creation builds from the draws d on a playfield of
      the given width. */
  function NewObstacle(canvasWidth: real, d: Draws): (o: Obstacle)
    requires d.Valid()
    ensures MIN_SIZE <= o.width < MAX_SIZE && o.height == o.width
    ensures o.y == -o.width
    ensures o.scoreValue == ScoreValue(o.width) && 0 <= o.scoreValue <= 400
    ensures o.width <= canvasWidth ==> 0.0 <= o.x <= canvasWidth - o.width
    ensures 0 <= o.image < IMAGE_COUNT
  {
    var size := d.size * (MAX_SIZE - MIN_SIZE) + MIN_SIZE;
    var position := Scale(d.position, canvasWidth - size);
    var imageIndex := (d.image * IMAGE_COUNT as real).Floor;
    ScoreValueRange(size);
    Obstacle(position, -size, size, size, ScoreValue(size), imageIndex)
  }

  /** The fraction u in [0, 1) of span: within [0, span] when span is not negative. */
  function Scale(u: real, span: real): (r: real)
    requires 0.0 <= u < 1.0
    ensures span >= 0.0 ==> 0.0 <= r <= span
  {
    assert span >= 0.0 ==> u * span <= 1.0 * span by {
      if span >= 0.0 { assert (1.0 - u) * span >= 0.0; }
    }
    u * span
  }
}

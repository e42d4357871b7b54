/**
 * The random helpers and clamps of the AI utilities. Every call of
 * `Random.NextDouble()` in the program is one draw from an `Rng`: an
 * infinite stream of values in [0, 1) together with the position of the
 * next unread value.
 */
module AIUtils {

  predicate IsUnitDraw(r: real) {
    0.0 <= r < 1.0
  }

  /** A source of `NextDouble()` values: `draw(pos)` is the next one. */
  datatype Rng = Rng(draw: nat -> real, pos: nat) {

    ghost predicate Valid() {
      forall i: nat :: IsUnitDraw(draw(i))
    }

    /** The next draw and the stream after it. */
    function Next(): (res: (real, Rng))
      ensures Valid() ==> IsUnitDraw(res.0) && res.1.Valid()
      ensures res.1.draw == draw && res.1.pos == pos + 1
    {
      (draw(pos), Rng(draw, pos + 1))
    }

    /** The stream after `n` more draws. */
    function Skip(n: nat): (g: Rng)
      ensures g.draw == draw && g.pos == pos + n
      ensures Valid() ==> g.Valid()
    {
      Rng(draw, pos + n)
    }
  }

  /** `RandomClamped`: a draw mapped onto [-1, 1). */
  function RandomClamped(r: real): (v: real)
    requires IsUnitDraw(r)
    ensures -1.0 <= v < 1.0
    ensures (v + 1.0) / 2.0 == r
  {
    (r - 0.5) * 2.0
  }

  /** `Random(max)`: a draw scaled onto [0, max) (or (max, 0] for a negative max). */
  function Random(max: real, r: real): (v: real)
    requires IsUnitDraw(r)
    ensures max >= 0.0 ==> 0.0 <= v <= max
    ensures max > 0.0 ==> v < max
    ensures max <= 0.0 ==> max <= v <= 0.0
    ensures max < 0.0 ==> max < v
  {
    ScaleBounds(r, max)
  }

  /** A unit draw scales a bound towards zero. */
  function ScaleBounds(r: real, m: real): (p: real)
    requires IsUnitDraw(r)
    ensures p == r * m
    ensures m >= 0.0 ==> 0.0 <= p <= m
    ensures m > 0.0 ==> p < m
    ensures m <= 0.0 ==> m <= p <= 0.0
    ensures m < 0.0 ==> m < p
  {
    var p := r * m;
    ProductBounds(r, m, p);
    p
  }

  /** The product `p` of a unit draw and `m` lies between 0 and `m`, never reaching a non-zero `m`. */
  lemma ProductBounds(r: real, m: real, p: real)
    requires IsUnitDraw(r) && p == r * m
    ensures m >= 0.0 ==> 0.0 <= p <= m
    ensures m > 0.0 ==> p < m
    ensures m <= 0.0 ==> m <= p <= 0.0
    ensures m < 0.0 ==> m < p
  {
    var q := 1.0 - r;
    assert q * m + p == m;
    if m > 0.0 {
      assert p >= 0.0 && q * m > 0.0;
    } else if m < 0.0 {
      assert p <= 0.0 && q * m < 0.0;
    }
  }

  /** `RandomInt(min, max)`: `Math.Floor(draw * (max - min)) + min`. */
  function RandomInt(min: int, max: int, r: real): (v: int)
    requires IsUnitDraw(r)
    ensures min < max ==> min <= v < max
    ensures min == max ==> v == min
    ensures max < min ==> max <= v <= min
  {
    ScaleBounds(r, (max - min) as real).Floor + min
  }

  /** `Clamp(value)`: into [0, 1]. */
  function Clamp(value: real): (v: real)
    ensures 0.0 <= v <= 1.0
    ensures 0.0 <= value <= 1.0 ==> v == value
    ensures value > 1.0 ==> v == 1.0
    ensures value < 0.0 ==> v == 0.0
  {
    if value > 1.0 then 1.0 else if value < 0.0 then 0.0 else value
  }

  /** `ClampTo(clampTo, value)`: into [0, clampTo] for a non-negative bound. */
  function ClampTo(clampTo: int, value: real): (v: real)
    ensures clampTo >= 0 ==> 0.0 <= v <= clampTo as real
    ensures 0.0 <= value <= clampTo as real ==> v == value
    ensures value > clampTo as real ==> v == clampTo as real
    ensures value < 0.0 && clampTo >= 0 ==> v == 0.0
  {
    if value > clampTo as real then clampTo as real else if value < 0.0 then 0.0 else value
  }

  /** `ClampAsOneAroundZero`: into [-0.5, 0.5]. */
  function ClampAsOneAroundZero(value: real): (v: real)
    ensures -0.5 <= v <= 0.5
    ensures -0.5 <= value <= 0.5 ==> v == value
    ensures value > 0.5 ==> v == 0.5
    ensures value < -0.5 ==> v == -0.5
  {
    if value > 0.5 then 0.5 else if value < -0.5 then -0.5 else value
  }

  /** `count` successive `RandomClamped` values read from `g`. */
  function ClampedDraws(g: Rng, count: nat): (w: seq<real>)
    requires g.Valid()
    ensures |w| == count
    ensures forall k :: 0 <= k < count ==> -1.0 <= w[k] < 1.0 && w[k] == RandomClamped(g.draw(g.pos + k))
    decreases count
  {
    if count == 0 then [] else ClampedDraws(g, count - 1) + [RandomClamped(g.draw(g.pos + count - 1))]
  }
}

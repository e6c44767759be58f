/** `getRandomInt` and `getRandomElement` of main.js, with `Math.random()`
    given as a draw: the fraction `num / den`, which lies in [0, 1). */
module RandomPick {

  import opened Outcomes

  /** One value of `Math.random()`. */
  datatype Draw = Draw(num: nat, den: nat)

  /** What `Math.random()` promises: a value in [0, 1). */
  predicate ValidDraw(d: Draw)
  {
    d.num < d.den
  }

  /** `Math.floor(num / den * k)` for a whole `k >= 0`. */
  function ScaledFloor(d: Draw, k: nat): (r: nat)
    requires ValidDraw(d)
    ensures r < k || k == 0
    ensures k == 0 ==> r == 0
  {
    ProductBelow(d.num, d.den, k);
    d.num * k / d.den
  }

  /** `num * k / den < k` whenever `num < den` and `k > 0`. */
  lemma ProductBelow(num: nat, den: nat, k: nat)
    requires num < den
    ensures k > 0 ==> num * k / den < k
    ensures k == 0 ==> num * k / den == 0
  {
    MulMonotone(k, num, den);
    var q := num * k / den;
    MulMonotone(den, k, q);
  }

  /** Multiplying by `d` keeps the order of `x` and `y`, strictly when `d > 0`. */
  lemma {:induction false} MulMonotone(d: nat, x: nat, y: nat)
    ensures x <= y ==> d * x <= d * y
    ensures x < y && d > 0 ==> d * x < d * y
    decreases y
  {
    if x < y {
      MulMonotone(d, x, y - 1);
      assert d * y == d * (y - 1) + d;
    }
  }

  /** `getRandomInt(min, max)` on whole bounds with `min <= max`, as its
      one caller uses it (`Math.ceil`/`Math.floor` are then the identity):
      inside [min, max) when that range is not empty, `min` when it is. */
  function RandomInt(min: int, max: int, d: Draw): (r: int)
    requires ValidDraw(d) && min <= max
    ensures min < max ==> min <= r < max
    ensures min == max ==> r == min
  {
    ScaledFloor(d, max - min) + min
  }

  /** The index `getRandomElement` reads in an array of length `n > 0`. */
  function RandomIndex(n: nat, d: Draw): (i: nat)
    requires ValidDraw(d) && n > 0
    ensures i < n
  {
    RandomInt(0, n, d)
  }

  /** `getRandomElement(array)`: the element at `getRandomInt(0, length)`;
      `undefined` on an empty array. */
  function RandomElement<T>(a: seq<T>, d: Draw): (r: Option<T>)
    requires ValidDraw(d)
    ensures r.None? <==> |a| == 0
    ensures r.Some? ==> r.value in a
    ensures |a| > 0 ==> r == Some(a[RandomIndex(|a|, d)])
  {
    var i := RandomInt(0, |a|, d);
    if 0 <= i < |a| then Some(a[i]) else None
  }
}

/** Published numbers are rounded to two decimals. */
module Numbers {

  /** `Math.round(value * 100) / 100` */
  function Round2(value: real): real {
    (value * 100.0 + 0.5).Floor as real / 100.0
  }

  lemma RoundingIsClose(x: real)
    ensures x - 0.005 <= Round2(x) <= x + 0.005
  {
  }

  lemma RoundingIsMonotone(x: real, y: real)
    requires x <= y
    ensures Round2(x) <= Round2(y)
  {
    var a, b := (x * 100.0 + 0.5).Floor, (y * 100.0 + 0.5).Floor;
    assert a <= b;
    assert a as real <= b as real;
  }
}

/** Rounding and products, as the other modules need them. */
module Numbers {
  /** A byte holds every number below 256. */
  lemma {:induction false} ByteHolds(n: nat)
    requires n < 256
    ensures (n as bv8) as nat == n
  {}

  /** Round half to even. */
  function Round(x: real): int {
    var low := x.Floor;
    var rest := x - low as real;
    if rest < 0.5 then low else if rest > 0.5 then low + 1 else if low % 2 == 0 then low else low + 1
  }

  /** The nearest whole number, of two equally near ones the even one. */
  lemma RoundIs(x: real)
    ensures -0.5 <= Round(x) as real - x <= 0.5
    ensures Round(x) as real - x in {-0.5, 0.5} ==> Round(x) % 2 == 0
  {}

  lemma TimesKeepsOrder(a: int, b: int, k: int)
    requires a <= b && k >= 0
    ensures a * k <= b * k
  {}
}

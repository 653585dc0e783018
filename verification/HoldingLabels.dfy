/** The holding labels a rename travels through, "~mv0~", "~mv1~", and so on. */
module HoldingLabels {

  function Digit(d: nat): char
    requires d < 10
  {
    "0123456789"[d]
  }

  function Decimal(n: nat): (s: string)
    ensures |s| >= 1
    ensures |s| == 1 <==> n < 10
  {
    if n < 10 then [Digit(n)] else Decimal(n / 10) + [Digit(n % 10)]
  }

  lemma {:induction false} DecimalInjective(a: nat, b: nat)
    requires Decimal(a) == Decimal(b)
    ensures a == b
  {
    var s, t := Decimal(a), Decimal(b);
    assert s[|s| - 1] == Digit(a % 10) && t[|t| - 1] == Digit(b % 10);
    assert a % 10 == b % 10;
    if a >= 10 {
      assert Decimal(a / 10) == s[..|s| - 1] == t[..|t| - 1] == Decimal(b / 10);
      DecimalInjective(a / 10, b / 10);
    }
  }

  function Holding(i: nat): string {
    "~mv" + Decimal(i) + "~"
  }

  /** Distinct renames of one edit travel through distinct labels. */
  lemma HoldingInjective(i: nat, j: nat)
    ensures Holding(i) == Holding(j) <==> i == j
  {
    if Holding(i) == Holding(j) {
      var s, t := Holding(i), Holding(j);
      assert Decimal(i) == s[3..|s| - 1] == t[3..|t| - 1] == Decimal(j);
      DecimalInjective(i, j);
    }
  }
}

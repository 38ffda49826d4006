/** Two facts used in several modules. */
module Facts {
  lemma Regroup<T>(a: seq<T>, b: seq<T>, c: seq<T>)
    ensures (a + b) + c == a + (b + c)
  {
  }

  /** Quotient and remainder are unique. */
  lemma Split(d: nat, v: nat, q: nat, r: nat)
    requires v == d * q + r && r < d
    ensures v / d == q && v % d == r
  {
    var k := v / d - q;
    assert d * k == r - v % d;
    NoMultipleBetween(d, k);
  }

  lemma NoMultipleBetween(d: nat, k: int)
    ensures -(d as int) < d * k < d ==> k == 0
  {
    if k > 0 {
      ProductAtLeast(d, k);
    } else if k < 0 {
      ProductAtLeast(d, -k);
      assert d * -k == -(d * k);
    }
  }

  lemma {:induction false} ProductAtLeast(d: nat, k: nat)
    requires k > 0
    ensures d * k >= d
  {
    if k > 1 {
      ProductAtLeast(d, k - 1);
      assert d * k == d * (k - 1) + d;
    }
  }
}

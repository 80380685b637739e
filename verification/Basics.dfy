/** What several parts share: optional values, word sizes, and indices that go round. */
module Basics {

  datatype Option<T> = None | Some(value: T)

  const TWO31: int := 0x8000_0000
  const TWO32: int := 0x1_0000_0000
  const TWO64: int := 0x1_0000_0000_0000_0000

  /** The index after `i` in a ring of `n` places. */
  function NextIndex(n: nat, i: nat): nat {
    if i + 1 >= n then 0 else i + 1
  }

  lemma Multiple(n: int, d: int)
    requires n >= 1
    ensures d >= 1 ==> n * d >= n
    ensures d <= -1 ==> n * d <= -n
  {
  }

  /** Quotient and remainder are the only ones. */
  lemma DivMod(laps: nat, n: nat, i: nat)
    requires i < n
    ensures (laps * n + i) / n == laps && (laps * n + i) % n == i
  {
    var k := laps * n + i;
    var d := k / n - laps;
    assert k == n * (k / n) + k % n;
    assert n * d == n * (k / n) - n * laps;
    assert n * d == i - k % n;
    Multiple(n, d);
  }
}

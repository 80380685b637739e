/** Little-endian words in memory. */
module Words {
  import opened Basics

  function LittleEndian(value: nat, n: nat): (s: seq<int>)
    ensures |s| == n
  {
    if n == 0 then [] else [value % 256] + LittleEndian(value / 256, n - 1)
  }

  function FromLittleEndian(s: seq<int>): int {
    if s == [] then 0 else s[0] + 256 * FromLittleEndian(s[1..])
  }

  function Pow256(n: nat): (p: nat)
    ensures p > 0
  {
    if n == 0 then 1 else 256 * Pow256(n - 1)
  }

  /** Byte `i` is the one of weight 256^i: the lowest comes first. */
  lemma {:induction false} ByteOf(value: nat, n: nat, i: nat)
    requires i < n
    ensures LittleEndian(value, n)[i] == value / Pow256(i) % 256
    decreases n
  {
    if i > 0 {
      ByteOf(value / 256, n - 1, i - 1);
      QuotientTwice(value, Pow256(i - 1));
    }
  }

  lemma QuotientTwice(a: nat, d: nat)
    requires d > 0
    ensures a / 256 / d == a / (256 * d)
  {
    var q, r := a / (256 * d), a % (256 * d);
    assert a == 256 * (d * q) + r;
    assert a / 256 == q * d + r / 256;
    assert r / 256 < d;
    DivMod(q, d, r / 256);
  }

  /** Reading back a word gives the value written, if it fits. */
  lemma {:induction false} WordRoundTrip(value: nat, n: nat)
    requires value < Pow256(n)
    ensures FromLittleEndian(LittleEndian(value, n)) == value
    decreases n
  {
    if n > 0 {
      WordRoundTrip(value / 256, n - 1);
      assert LittleEndian(value, n)[1..] == LittleEndian(value / 256, n - 1);
    }
  }
}

/** Facts about numbers that the solver needs in small portions. */
module Arith {
  const U32: nat := 0x1_0000_0000
  const U64: nat := 0x1_0000_0000_0000_0000

  function Min(a: nat, b: nat): nat { if a <= b then a else b }

  function Max(a: nat, b: nat): nat { if a >= b then a else b }

  function Pow256(n: nat): (p: nat)
    ensures p >= 1
  {
    if n == 0 then 1 else 256 * Pow256(n - 1)
  }

  lemma {:induction false} MulMono(a: int, b: int, c: nat)
    requires a <= b
    ensures a * c <= b * c
    ensures a < b ==> a * c + c <= b * c
    decreases b - a
  {
    if a < b {
      MulMono(a, b - 1, c);
      assert b * c == (b - 1) * c + c;
    }
  }

  lemma {:induction false} ModIs(x: int, q: int, r: nat, w: nat)
    requires r < w && x == q * w + r
    ensures x % w == r && x / w == q
  {
    var p := x / w;
    assert x == p * w + x % w;
    if p < q { MulMono(p, q, w); } else { MulMono(q, p, w); }
  }

  lemma {:induction false} ModPlus(a: nat, b: nat, w: nat)
    requires w > 0
    ensures (a % w + b % w) % w == (a + b) % w
  {
    var s := a % w + b % w;
    assert a == a / w * w + a % w && b == b / w * w + b % w && s == s / w * w + s % w;
    ModIs(a + b, a / w + b / w + s / w, s % w, w);
  }
}

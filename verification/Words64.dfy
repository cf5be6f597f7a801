/** 64-bit words that wrap around: sums, exclusive sums and rotations. Sums and exclusive sums can
    be undone. */
module Words64 {
  function Minus(x: bv64, y: bv64): bv64 { x - y }

  function Plus(x: bv64, y: bv64): bv64 { x + y }
  function Xor(x: bv64, y: bv64): bv64 { x ^ y }

  /** A rotation distance strictly inside the word. */
  type Distance = k: bv7 | 0 < k < 64 witness 1

  function Rot64(x: bv64, k: Distance): bv64 {
    (x << k) | (x >> (64 - k))
  }

  lemma SumBack(x: bv64, v: bv64)
    ensures Minus(x + v, v) == x
  {
  }

  lemma PlusIsSum(x: bv64, v: bv64)
    ensures Minus(Plus(x, v), v) == Minus(x + v, v)
  {
    hide Minus;
  }

  lemma AddBack(x: bv64, v: bv64)
    ensures Minus(Plus(x, v), v) == x
  {
    hide Plus, Minus;
    SumBack(x, v);
    PlusIsSum(x, v);
  }

  lemma AddInjective(x: bv64, y: bv64, v: bv64)
    requires Plus(x, v) == Plus(y, v)
    ensures x == y
  {
    hide Plus, Minus;
    AddBack(x, v);
    AddBack(y, v);
  }

  lemma PlusCommutes(x: bv64, y: bv64)
    ensures Plus(x, y) == Plus(y, x)
  {
  }

  lemma PlusCancels(x: bv64, v: bv64, w: bv64)
    requires Plus(x, v) == Plus(x, w)
    ensures v == w
  {
    hide Plus;
    PlusCommutes(x, v);
    PlusCommutes(x, w);
    AddInjective(v, w, x);
  }

  lemma XorBack(x: bv64, v: bv64)
    ensures Xor(Xor(x, v), v) == x
  {
  }

  lemma XorInjective(x: bv64, y: bv64, v: bv64)
    requires Xor(x, v) == Xor(y, v)
    ensures x == y
  {
    hide Xor;
    XorBack(x, v);
    XorBack(y, v);
  }
}

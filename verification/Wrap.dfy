/** Ring positions: 16-bit indices that wrap, taken modulo the queue size. */
module Wrap {

  const WRAP: nat := 0x1_0000

  /** A queue size that divides 2^16, that is, a power of two (section 2.4 of VIRTIO 1.0). */
  predicate IsQueueSize(n: nat) {
    2 <= n <= 0x8000 && WRAP % n == 0
  }

  /** The 16-bit value of a counter. */
  function Idx(c: nat): nat { c % WRAP }

  /** The ring slot of a counter. */
  function Slot(c: nat, n: nat): nat
    requires 0 < n
  {
    c % n
  }

  lemma MulMonotone(n: nat, x: int, y: int)
    requires x <= y
    ensures n * x <= n * y
  {}

  /** Quotient and remainder are unique. */
  lemma ModUnique(x: nat, n: nat, q: nat, r: nat)
    requires 0 < n && r < n && x == n * q + r
    ensures x % n == r
  {
    var p := x / n;
    assert x == n * p + x % n;
    assert n * q - n * p == n * (q - p);
    if p < q {
      MulMonotone(n, 1, q - p);
    } else if q < p {
      MulMonotone(n, q - p, -1);
    }
  }

  lemma AddMultiple(r: nat, n: nat, k: nat)
    requires 0 < n
    ensures (r + n * k) % n == r % n
  {
    var q := r / n;
    assert r == n * q + r % n;
    assert n * q + n * k == n * (q + k);
    ModUnique(r + n * k, n, q + k, r % n);
  }

  /** Close counters have different remainders. */
  lemma ModDistinct(a: nat, b: nat, n: nat)
    requires 0 < n && a < b < a + n
    ensures a % n != b % n
  {
    if a % n == b % n {
      var p, q := a / n, b / n;
      assert a == n * p + a % n && b == n * q + b % n;
      assert b - a == n * q - n * p == n * (q - p);
      if q <= p {
        MulMonotone(n, q, p);
      } else {
        MulMonotone(n, 1, q - p);
      }
    }
  }

  /** Wrapping at 2^16 first does not change the slot. */
  lemma WrapSlot(c: nat, n: nat)
    requires IsQueueSize(n)
    ensures Slot(Idx(c), n) == Slot(c, n)
  {
    DividesWrap(c, n);
  }

  lemma DividesWrap(c: nat, n: nat)
    requires 0 < n && WRAP % n == 0
    ensures Slot(Idx(c), n) == Slot(c, n)
  {
    var q, m := c / WRAP, WRAP / n;
    assert WRAP == n * m;
    assert c == Idx(c) + WRAP * q;
    assert WRAP * q == n * (m * q) by {
      assert (n * m) * q == n * (m * q);
    }
    AddMultiple(Idx(c), n, m * q);
  }

  /**
   The slot of the wrapped index is the slot of the counter for every counter exactly when
   the queue size divides 2^16.
   */
  lemma WrapSlotIff(n: nat)
    requires 0 < n
    ensures (forall c: nat :: Slot(Idx(c), n) == Slot(c, n)) <==> 0x1_0000 % n == 0
    ensures forall c: nat :: Idx(c) == c % 0x1_0000
  {
    if WRAP % n == 0 {
      forall c: nat ensures Slot(Idx(c), n) == Slot(c, n) {
        DividesWrap(c, n);
      }
    } else {
      assert Slot(Idx(WRAP), n) == 0 && Slot(WRAP, n) != 0;
    }
  }

  /** Wrapped indices differ exactly when the counters do, as long as these stay close. */
  lemma WrapCompare(a: nat, b: nat)
    requires a <= b < a + WRAP
    ensures Idx(a) != Idx(b) <==> a != b
  {
    if a < b {
      ModDistinct(a, b, WRAP);
    }
  }

  lemma WrapNext(c: nat)
    ensures Idx(c + 1) == (Idx(c) + 1) % WRAP
  {}
}

/** Bytes of memory, totalised reads and the 8-bit sum used by ACPI checksums. */
module Bytes {

  type byte = x: int | 0 <= x < 256

  type Mem = seq<byte>

  datatype Option<+T> = None | Some(value: T)

  /** The byte at address `i`. A read past the end of the modelled memory yields 0. */
  function Read(m: Mem, i: nat): byte {
    if i < |m| then m[i] else 0
  }

  /** The byte at offset `i` from the pointer `o`. */
  function At(m: Mem, o: nat, i: nat): byte {
    Read(m, o + i)
  }

  /** Two buffers hold the same first `n` bytes. */
  ghost predicate Agree(m1: Mem, o1: nat, m2: Mem, o2: nat, n: nat) {
    forall i: nat :: i < n ==> At(m1, o1, i) == At(m2, o2, i)
  }

  lemma AgreeShift(m1: Mem, o1: nat, m2: Mem, o2: nat, n: nat, k: nat)
    requires Agree(m1, o1, m2, o2, n)
    requires k <= n
    ensures Agree(m1, o1 + k, m2, o2 + k, n - k)
  {
    var p1, p2 := o1 + k, o2 + k;
    forall i: nat | i < n - k
      ensures At(m1, p1, i) == At(m2, p2, i)
    {
      assert At(m1, o1, k + i) == At(m2, o2, k + i);
    }
  }

  /** Memory after `data` has been copied to `o`. */
  function Write(m: Mem, o: nat, data: Mem): (r: Mem)
    requires o + |data| <= |m|
    ensures |r| == |m|
    ensures forall i :: 0 <= i < |m| ==> r[i] == if o <= i < o + |data| then data[i - o] else m[i]
  {
    m[..o] + data + m[o + |data|..]
  }

  /** The sum of the bytes in [lo, hi). */
  function Sum(m: Mem, lo: nat, hi: nat): nat
    requires lo <= hi <= |m|
    decreases hi - lo
  {
    if lo == hi then 0 else m[lo] + Sum(m, lo + 1, hi)
  }

  lemma {:induction false} SumFrame(m1: Mem, m2: Mem, lo: nat, hi: nat)
    requires lo <= hi <= |m1| && hi <= |m2|
    requires forall i :: lo <= i < hi ==> m1[i] == m2[i]
    ensures Sum(m1, lo, hi) == Sum(m2, lo, hi)
    decreases hi - lo
  {
    if lo < hi {
      SumFrame(m1, m2, lo + 1, hi);
    }
  }

  lemma {:induction false} SumUpdate(m: Mem, lo: nat, hi: nat, i: nat, v: byte)
    requires lo <= i < hi <= |m|
    ensures Sum(m[i := v], lo, hi) == Sum(m, lo, hi) - m[i] + v
    decreases hi - lo
  {
    if lo < i {
      SumUpdate(m, lo + 1, hi, i, v);
    } else {
      SumFrame(m, m[i := v], lo + 1, hi);
    }
  }

  lemma {:induction false} SumSnoc(m: Mem, lo: nat, hi: nat)
    requires lo <= hi < |m|
    ensures Sum(m, lo, hi + 1) == Sum(m, lo, hi) + m[hi]
    decreases hi - lo
  {
    if lo < hi {
      SumSnoc(m, lo + 1, hi);
    }
  }

  /** The byte that brings a sum back to 0 modulo 256. */
  function Complement(sum: nat): byte {
    (256 - sum % 256) % 256
  }

  /** A checksum byte computed with itself taken as 0 makes the whole range sum to 0. */
  lemma ChecksumFixes(m: Mem, lo: nat, hi: nat, i: nat)
    requires lo <= i < hi <= |m|
    ensures Sum(m[i := Complement(Sum(m[i := 0], lo, hi))], lo, hi) % 256 == 0
  {
    var z := m[i := 0];
    SumUpdate(z, lo, hi, i, Complement(Sum(z, lo, hi)));
    assert z[i := Complement(Sum(z, lo, hi))] == m[i := Complement(Sum(z, lo, hi))];
  }
}

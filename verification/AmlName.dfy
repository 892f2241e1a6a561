/**
 AML NameStrings (section 20.2.2 of ACPI 6.5): their size, and the fact that the size
 depends on no byte outside the name itself.
 */
module AmlName {
  import opened Bytes

  const ROOT_CHAR: byte := 0x5C
  const PARENT_CHAR: byte := 0x5E
  const DUAL_PREFIX: byte := 0x2E
  const MULTI_PREFIX: byte := 0x2F
  const UNDERSCORE: byte := 0x5F
  const SEG_SIZE: nat := 4

  predicate IsLeadName(c: byte) {
    c == UNDERSCORE || 0x41 <= c <= 0x5A
  }

  predicate IsName(c: byte) {
    IsLeadName(c) || 0x30 <= c <= 0x39
  }

  predicate IsNameSeg(m: Mem, o: nat) {
    IsLeadName(At(m, o, 0)) && IsName(At(m, o, 1)) && IsName(At(m, o, 2)) && IsName(At(m, o, 3))
  }

  /** The number of parent prefix characters at `o`. */
  function ParentRun(m: Mem, o: nat): nat
    decreases |m| - o
  {
    if o < |m| && m[o] == PARENT_CHAR then 1 + ParentRun(m, o + 1) else 0
  }

  predicate NameSegs(m: Mem, o: nat, count: nat)
    decreases count
  {
    count == 0 || (IsNameSeg(m, o) && NameSegs(m, o + SEG_SIZE, count - 1))
  }

  /** The length of the root or parent prefix of the name at `o`. */
  function PrefixLength(m: Mem, o: nat): nat {
    if Read(m, o) == ROOT_CHAR then 1 else ParentRun(m, o)
  }

  /** How many name segments follow the prefixes, and how many bytes announce them. */
  datatype SegHeader = NullName | SegHeader(bytes: nat, count: nat)

  function ParseSegHeader(m: Mem, o: nat): SegHeader {
    var c := Read(m, o);
    if c == DUAL_PREFIX then SegHeader(1, 2)
    else if c == MULTI_PREFIX then SegHeader(2, if At(m, o, 1) == 0 then 1 else At(m, o, 1))
    else if c == 0 then NullName
    else SegHeader(0, 1)
  }

  /** The size of the NameString at `o`, or None when the bytes are no NameString. */
  function NameSize(m: Mem, o: nat): Option<nat> {
    var p := PrefixLength(m, o);
    match ParseSegHeader(m, o + p)
    case NullName => if Read(m, o) == ROOT_CHAR then Some(2) else None
    case SegHeader(h, n) => if NameSegs(m, o + p + h, n) then Some(p + h + SEG_SIZE * n) else None
  }

  /** Skips the root character or the run of parent prefixes. */
  method SkipPrefix(m: Mem, o: nat) returns (b: nat)
    ensures b == o + PrefixLength(m, o)
  {
    b := o;
    if Read(m, b) == ROOT_CHAR {
      b := b + 1;
    } else if Read(m, b) == PARENT_CHAR {
      b := b + 1;
      while Read(m, b) == PARENT_CHAR
        invariant o < b <= |m|
        invariant ParentRun(m, o) == b - o + ParentRun(m, b)
        decreases |m| - b
      {
        b := b + 1;
      }
    }
  }

  /** The segment loop: its body runs at least once, even for a MultiName count of zero. */
  method CheckSegs(m: Mem, first: nat, segCount: nat) returns (ok: bool, index: nat)
    ensures ok == NameSegs(m, first, if segCount == 0 then 1 else segCount)
    ensures ok ==> index == if segCount == 0 then 1 else segCount
  {
    ghost var n := if segCount == 0 then 1 else segCount;
    var b: nat := first;
    index := 0;
    while true
      invariant index < n
      invariant NameSegs(m, first, n) == NameSegs(m, b, n - index)
      decreases n - index
    {
      if !IsNameSeg(m, b) {
        return false, index;
      }
      b := b + SEG_SIZE;
      index := index + 1;
      if !(index < segCount) {
        return true, index;
      }
    }
  }

  /** The size computation as the driver performs it. */
  method GetNameStringSize(m: Mem, o: nat) returns (size: Option<nat>)
    ensures size == NameSize(m, o)
  {
    var b := SkipPrefix(m, o);
    var length := b - o;
    var segCount: nat;
    if Read(m, b) == DUAL_PREFIX {
      b, length, segCount := b + 1, length + 1, 2;
    } else if Read(m, b) == MULTI_PREFIX {
      segCount := At(m, b, 1);
      b, length := b + 2, length + 2;
    } else if Read(m, b) == 0 {
      if length == 1 && Read(m, b - 1) == ROOT_CHAR {
        return Some(2);
      }
      return None;
    } else {
      segCount := 1;
    }
    var ok, index := CheckSegs(m, b, segCount);
    return if ok then Some(length + SEG_SIZE * index) else None;
  }

  lemma {:induction false} ParentRunLocal(m1: Mem, o1: nat, m2: Mem, o2: nat, n: nat)
    requires Agree(m1, o1, m2, o2, n)
    requires ParentRun(m1, o1) < n
    ensures ParentRun(m2, o2) == ParentRun(m1, o1)
    decreases n
  {
    assert At(m1, o1, 0) == At(m2, o2, 0);
    if Read(m1, o1) == PARENT_CHAR {
      AgreeShift(m1, o1, m2, o2, n, 1);
      ParentRunLocal(m1, o1 + 1, m2, o2 + 1, n - 1);
    }
  }

  lemma {:induction false} NameSegsLocal(m1: Mem, o1: nat, m2: Mem, o2: nat, count: nat)
    requires Agree(m1, o1, m2, o2, SEG_SIZE * count)
    ensures NameSegs(m1, o1, count) == NameSegs(m2, o2, count)
    decreases count
  {
    if count != 0 {
      assert At(m1, o1, 0) == At(m2, o2, 0) && At(m1, o1, 1) == At(m2, o2, 1);
      assert At(m1, o1, 2) == At(m2, o2, 2) && At(m1, o1, 3) == At(m2, o2, 3);
      AgreeShift(m1, o1, m2, o2, SEG_SIZE * count, SEG_SIZE);
      NameSegsLocal(m1, o1 + SEG_SIZE, m2, o2 + SEG_SIZE, count - 1);
    }
  }

  /** A NameString lies in the bytes it announces: no other byte can change its size. */
  lemma NameSizeLocal(m1: Mem, o1: nat, m2: Mem, o2: nat, n: nat)
    requires Agree(m1, o1, m2, o2, n)
    requires NameSize(m1, o1).Some? && NameSize(m1, o1).value <= n
    ensures NameSize(m2, o2) == NameSize(m1, o1)
  {
    var p := PrefixLength(m1, o1);
    assert At(m1, o1, 0) == At(m2, o2, 0);
    if Read(m1, o1) != ROOT_CHAR {
      ParentRunLocal(m1, o1, m2, o2, n);
    }
    assert PrefixLength(m2, o2) == p;
    assert At(m1, o1, p) == At(m2, o2, p);
    match ParseSegHeader(m1, o1 + p)
    case NullName =>
    case SegHeader(h, count) =>
      assert h == 2 ==> At(m1, o1, p + 1) == At(m2, o2, p + 1);
      AgreeShift(m1, o1, m2, o2, n, p + h);
      NameSegsLocal(m1, o1 + (p + h), m2, o2 + (p + h), count);
      assert o1 + p + h == o1 + (p + h) && o2 + p + h == o2 + (p + h);
  }

  /** One segment, two behind 0x2E, or as many as the byte behind 0x2F says, but at least one. */
  lemma SegmentsAreCounted(m: Mem, o: nat)
    requires Read(m, o) != 0x5C && Read(m, o) != 0x5E
    ensures IsNameSeg(m, o) ==> NameSize(m, o) == Some(4)
    ensures Read(m, o) == 0x2E ==>
              NameSize(m, o) == if IsNameSeg(m, o + 1) && IsNameSeg(m, o + 5) then Some(9) else None
    ensures Read(m, o) == 0x2F && At(m, o, 1) <= 1 ==>
              NameSize(m, o) == if IsNameSeg(m, o + 2) then Some(6) else None
    ensures Read(m, o) == 0x2F && NameSize(m, o).Some? && 0 < At(m, o, 1) ==>
              NameSize(m, o).value == 2 + 4 * At(m, o, 1) as int
    ensures Read(m, o) == 0 ==> NameSize(m, o) == None
  {
    assert ParentRun(m, o) == 0;
    assert NameSegs(m, o, 1) == IsNameSeg(m, o) by {
      assert NameSegs(m, o + 4, 0);
    }
    assert NameSegs(m, o + 1, 2) == (IsNameSeg(m, o + 1) && IsNameSeg(m, o + 5)) by {
      assert NameSegs(m, o + 5, 1) == (IsNameSeg(m, o + 5) && NameSegs(m, o + 9, 0));
    }
    assert NameSegs(m, o + 2, 1) == IsNameSeg(m, o + 2) by {
      assert NameSegs(m, o + 6, 0);
    }
  }
}

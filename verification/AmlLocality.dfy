/**
 What an AML object's size and options depend on. The parser checks most bounds only after
 it has read; these lemmas show that its answers nevertheless depend on no byte past the
 bound, and that a measured object keeps its size under every bound that still holds it.
 */
module AmlLocality {
  import opened Bytes
  import opened AmlParse
  import AmlName

  lemma {:induction false} StrSizeLocal(m1: Mem, o1: nat, m2: Mem, o2: nat, n: nat)
    requires Agree(m1, o1, m2, o2, n)
    requires StrSize(m1, o1) <= n
    ensures StrSize(m2, o2) == StrSize(m1, o1)
    decreases n
  {
    assert At(m1, o1, 0) == At(m2, o2, 0);
    if Read(m1, o1) != 0 {
      AgreeShift(m1, o1, m2, o2, n, 1);
      StrSizeLocal(m1, o1 + 1, m2, o2 + 1, n - 1);
    }
  }

  lemma BoundedNameLocal(m1: Mem, o1: nat, m2: Mem, o2: nat, n: nat)
    requires Agree(m1, o1, m2, o2, n)
    ensures BoundedName(m1, o1, n) == BoundedName(m2, o2, n)
  {
    if BoundedName(m1, o1, n).Ok? {
      AmlName.NameSizeLocal(m1, o1, m2, o2, n);
    }
    if BoundedName(m2, o2, n).Ok? {
      AmlName.NameSizeLocal(m2, o2, m1, o1, n);
    }
  }

  lemma BoundedStrLocal(m1: Mem, o1: nat, m2: Mem, o2: nat, n: nat)
    requires Agree(m1, o1, m2, o2, n)
    ensures Bounded(String, StrSize(m1, o1), n) == Bounded(String, StrSize(m2, o2), n)
  {
    if StrSize(m1, o1) <= n {
      StrSizeLocal(m1, o1, m2, o2, n);
    }
    if StrSize(m2, o2) <= n {
      StrSizeLocal(m2, o2, m1, o1, n);
    }
  }

  /** A name cannot start with the extension prefix. */
  lemma NoExtName(m: Mem, o: nat, max: nat)
    requires Read(m, o) == EXT_OP
    ensures BoundedName(m, o, max).Err?
  {
    assert AmlName.ParentRun(m, o) == 0;
  }

  /** When the bound cuts off even the opcode, the object is rejected whatever follows. */
  lemma CutOpcodeFails(t: Table, e: Encoding, m: Mem, o: nat, max: nat)
    requires max < OpLength(m, o)
    ensures ObjectSize(t, e, m, o, max) == 0
  {
    if max == 1 {
      NoExtName(m, o, max);
    }
  }

  lemma {:induction false} TermLocal(t: Table, f: Format, m1: Mem, o1: nat, m2: Mem, o2: nat, max: nat)
    requires Agree(m1, o1, m2, o2, max)
    requires 0 < max
    ensures ParseTerm(t, f, m1, o1, max) == ParseTerm(t, f, m2, o2, max)
    decreases max, 2
  {
    match f
    case Str => BoundedStrLocal(m1, o1, m2, o2, max);
    case Name => BoundedNameLocal(m1, o1, m2, o2, max);
    case Object =>
      assert At(m1, o1, 0) == At(m2, o2, 0);
      if max < OpLength(m1, o1) {
        NoExtName(m1, o1, max);
        NoExtName(m2, o2, max);
        forall e: Encoding ensures ObjectSize(t, e, m1, o1, max) == 0 { CutOpcodeFails(t, e, m1, o1, max); }
        forall e: Encoding ensures ObjectSize(t, e, m2, o2, max) == 0 { CutOpcodeFails(t, e, m2, o2, max); }
      } else {
        assert OpLength(m1, o1) == 2 ==> At(m1, o1, 1) == At(m2, o2, 1);
        BoundedNameLocal(m1, o1, m2, o2, max);
        match Search(t, m1, o1)
        case None =>
        case Some(e) => OptionLocal(t, e, m1, o1, m2, o2, max, GET_SIZE);
      }
    case _ =>
  }

  lemma {:induction false} TermsLocal(t: Table, e: Encoding, m1: Mem, o1: nat, m2: Mem, o2: nat,
                                      max: nat, cur: nat, k: nat, index: nat)
    requires 1 <= k
    requires Agree(m1, o1, m2, o2, max)
    ensures ParseTerms(t, e, m1, o1, max, cur, k, index) == ParseTerms(t, e, m2, o2, max, cur, k, index)
    decreases if cur <= max then max - cur else 0, 3, |e.formats| + 1 - k
  {
    if k <= index && k <= |e.formats| && cur < max {
      AgreeShift(m1, o1, m2, o2, max, cur);
      TermLocal(t, e.formats[k - 1], m1, o1 + cur, m2, o2 + cur, max - cur);
      var r := ParseTerm(t, e.formats[k - 1], m1, o1 + cur, max - cur);
      if r.Ok? && index != k {
        TermsLocal(t, e, m1, o1, m2, o2, max, cur + r.size, k + 1, index);
      }
    }
  }

  lemma PkgLengthLocal(m1: Mem, o1: nat, m2: Mem, o2: nat, n: nat)
    requires Agree(m1, o1, m2, o2, n)
    requires PkgLength(m1, o1).bytes <= n
    ensures PkgLength(m2, o2) == PkgLength(m1, o1)
  {
    var bytes := PkgLength(m1, o1).bytes;
    assert At(m1, o1, 0) == At(m2, o2, 0);
    assert 1 < bytes ==> At(m1, o1, 1) == At(m2, o2, 1);
    assert 2 < bytes ==> At(m1, o1, 2) == At(m2, o2, 2);
    assert 3 < bytes ==> At(m1, o1, 3) == At(m2, o2, 3);
  }

  /** A PkgLength field that the bound cuts off makes the parser fail, whatever it encodes. */
  lemma CutPkgFails(t: Table, e: Encoding, m: Mem, o: nat, max: nat, index: nat)
    requires e.hasPkg && !e.isNameChar && index != 0
    requires OpLength(m, o) + PkgLength(m, o + OpLength(m, o)).bytes > max
    ensures ParseOption(t, e, m, o, max, index).Err?
  {}

  /**
   Locality: an option, or the size, is the same in any two memories that hold the same
   first `max` bytes of the object, wherever the object lies in each.
   */
  lemma {:induction false} OptionLocal(t: Table, e: Encoding, m1: Mem, o1: nat, m2: Mem, o2: nat,
                                       max: nat, index: nat)
    requires Agree(m1, o1, m2, o2, max)
    requires index != 0 || 0 < max
    ensures ParseOption(t, e, m1, o1, max, index) == ParseOption(t, e, m2, o2, max, index)
    decreases max, 1
  {
    if e.isNameChar {
      BoundedNameLocal(m1, o1, m2, o2, max);
    } else if 0 < max {
      assert At(m1, o1, 0) == At(m2, o2, 0);
      var op := OpLength(m1, o1);
      if index != 0 && op <= max {
        if !e.hasPkg {
          TermsLocal(t, e, m1, o1, m2, o2, max, op, 1, index);
        } else {
          OptionPkgLocal(t, e, m1, o1, m2, o2, max, index);
        }
      }
    }
  }

  lemma {:induction false} OptionPkgLocal(t: Table, e: Encoding, m1: Mem, o1: nat, m2: Mem, o2: nat,
                                          max: nat, index: nat)
    requires Agree(m1, o1, m2, o2, max)
    requires index != 0 && e.hasPkg && !e.isNameChar
    requires OpLength(m1, o1) <= max
    ensures ParseOption(t, e, m1, o1, max, index) == ParseOption(t, e, m2, o2, max, index)
    decreases max, 0
  {
    hide ParseTerms, PkgLength;
    assert At(m1, o1, 0) == At(m2, o2, 0);
    var op := OpLength(m1, o1);
    var p1, p2 := PkgLength(m1, o1 + op), PkgLength(m2, o2 + op);
    AgreeShift(m1, o1, m2, o2, max, op);
    if op + p1.bytes <= max {
      PkgLengthLocal(m1, o1 + op, m2, o2 + op, max - op);
    } else if op + p2.bytes <= max {
      PkgLengthLocal(m2, o2 + op, m1, o1 + op, max - op);
    } else {
      CutPkgFails(t, e, m1, o1, max, index);
      CutPkgFails(t, e, m2, o2, max, index);
    }
    if op + p1.bytes <= max && op + p1.length <= max {
      TermsLocal(t, e, m1, o1, m2, o2, op + p1.length, op + p1.bytes, 1, index);
    }
  }

  // ----- stability of sizes -----

  /** A name, or an object that announces its own length, is never cut off; any other needs all its terms. */
  predicate Whole(t: Table, e: Encoding, m: Mem, o: nat, max: nat)
    decreases max, 1
  {
    || e.isNameChar || e.hasPkg
    || (OpLength(m, o) <= max && WholeTerms(t, e, m, o, max, OpLength(m, o), 1))
  }

  /** The terms from number `k` on are all there, and one that ends at the bound is whole itself. */
  predicate WholeTerms(t: Table, e: Encoding, m: Mem, o: nat, max: nat, cur: nat, k: nat)
    requires 1 <= k
    decreases if cur <= max then max - cur else 0, 3, |e.formats| + 1 - k
  {
    k > |e.formats| ||
    (cur < max &&
     match ParseTerm(t, e.formats[k - 1], m, o + cur, max - cur)
     case Err => false
     case Ok(_, _, s) =>
       && (cur + s == max ==> WholeTerm(t, e.formats[k - 1], m, o + cur, max - cur))
       && WholeTerms(t, e, m, o, max, cur + s, k + 1))
  }

  predicate WholeTerm(t: Table, f: Format, m: Mem, o: nat, max: nat)
    decreases max, 2
  {
    f.Object? ==>
      match Search(t, m, o)
      case None => false
      case Some(e) => e.isNameChar || Whole(t, e, m, o, max)
  }

  /** `b` holds what had size `s` under the bound `max`, and does not let it grow. */
  predicate Holds(s: nat, max: nat, b: nat, whole: bool) {
    s <= b && (b <= max || s < max || whole)
  }

  lemma SizeCoversOpcode(t: Table, e: Encoding, m: Mem, o: nat, max: nat)
    requires 0 < ObjectSize(t, e, m, o, max)
    ensures OpLength(m, o) <= ObjectSize(t, e, m, o, max)
  {
    if e.isNameChar && Read(m, o) == EXT_OP {
      NoExtName(m, o, max);
    }
  }

  /** The same bytes start with the same opcode. */
  lemma SameOpcode(t: Table, m1: Mem, o1: nat, m2: Mem, o2: nat, n: nat)
    requires Agree(m1, o1, m2, o2, n) && 0 < n && OpLength(m1, o1) <= n
    ensures Search(t, m2, o2) == Search(t, m1, o1) && OpLength(m2, o2) == OpLength(m1, o1)
  {
    assert At(m1, o1, 0) == At(m2, o2, 0);
    assert OpLength(m1, o1) == 2 ==> At(m1, o1, 1) == At(m2, o2, 1);
  }

  lemma {:induction false} TermStable(t: Table, f: Format, m1: Mem, o1: nat, max: nat, m2: Mem, o2: nat, b: nat)
    requires ParseTerm(t, f, m1, o1, max).Ok?
    requires Agree(m1, o1, m2, o2, ParseTerm(t, f, m1, o1, max).size)
    requires Holds(ParseTerm(t, f, m1, o1, max).size, max, b, WholeTerm(t, f, m1, o1, max))
    ensures ParseTerm(t, f, m2, o2, b) == ParseTerm(t, f, m1, o1, max)
    decreases max, 2
  {
    var s := ParseTerm(t, f, m1, o1, max).size;
    match f
    case Str => StrSizeLocal(m1, o1, m2, o2, s);
    case Name => AmlName.NameSizeLocal(m1, o1, m2, o2, s);
    case Object =>
      var e := Search(t, m1, o1).value;
      assert At(m1, o1, 0) == At(m2, o2, 0);
      if e.isNameChar {
        AmlName.NameSizeLocal(m1, o1, m2, o2, s);
        if Read(m1, o1) == EXT_OP { NoExtName(m1, o1, max); }
      } else {
        SizeCoversOpcode(t, e, m1, o1, max);
        SameOpcode(t, m1, o1, m2, o2, s);
        SizeStable(t, e, m1, o1, max, m2, o2, b);
      }
    case _ =>
  }

  lemma {:induction false} TermsStable(t: Table, e: Encoding, m1: Mem, o1: nat, max: nat, cur: nat, k: nat,
                                       m2: Mem, o2: nat, b: nat)
    requires 1 <= k
    requires var r := ParseTerms(t, e, m1, o1, max, cur, k, GET_SIZE);
             r.Ok? && Agree(m1, o1, m2, o2, r.size) && Holds(r.size, max, b, WholeTerms(t, e, m1, o1, max, cur, k))
    ensures ParseTerms(t, e, m2, o2, b, cur, k, GET_SIZE) == ParseTerms(t, e, m1, o1, max, cur, k, GET_SIZE)
    decreases if cur <= max then max - cur else 0, 3, |e.formats| + 1 - k
  {
    hide ParseTerm, WholeTerm;
    if k <= |e.formats| && cur < max {
      var s := ParseTerm(t, e.formats[k - 1], m1, o1 + cur, max - cur).size;
      AgreeShift(m1, o1, m2, o2, ParseTerms(t, e, m1, o1, max, cur, k, GET_SIZE).size, cur);
      TermStable(t, e.formats[k - 1], m1, o1 + cur, max - cur, m2, o2 + cur, b - cur);
      TermsStable(t, e, m1, o1, max, cur + s, k + 1, m2, o2, b);
    }
  }

  /**
   Stability: a measured object has the same size wherever its own bytes appear again, under
   every smaller bound that still holds it and, unless it was cut off at its bound, under every
   larger one.
   */
  lemma {:induction false} SizeStable(t: Table, e: Encoding, m1: Mem, o1: nat, max: nat, m2: Mem, o2: nat, b: nat)
    requires 0 < ObjectSize(t, e, m1, o1, max)
    requires Agree(m1, o1, m2, o2, ObjectSize(t, e, m1, o1, max))
    requires Holds(ObjectSize(t, e, m1, o1, max), max, b, Whole(t, e, m1, o1, max))
    ensures ObjectSize(t, e, m2, o2, b) == ObjectSize(t, e, m1, o1, max)
    decreases max, 1
  {
    var s := ObjectSize(t, e, m1, o1, max);
    var op := OpLength(m1, o1);
    assert At(m1, o1, 0) == At(m2, o2, 0);
    if e.isNameChar {
      AmlName.NameSizeLocal(m1, o1, m2, o2, s);
    } else if !e.hasPkg {
      TermsStable(t, e, m1, o1, max, op, 1, m2, o2, b);
    } else {
      OptionPkgLocal(t, e, m1, o1, m2, o2, s, GET_SIZE);
    }
  }

  // ----- objects that are cut off -----

  lemma {:induction false} TermGrows(t: Table, f: Format, m1: Mem, o1: nat, max: nat, m2: Mem, o2: nat, b: nat)
    requires ParseTerm(t, f, m1, o1, max).Ok? && ParseTerm(t, f, m1, o1, max).size == max < b
    requires Agree(m1, o1, m2, o2, max) && !WholeTerm(t, f, m1, o1, max)
    ensures var r := ParseTerm(t, f, m2, o2, b); r.Ok? ==> max < r.size
    decreases max, 2
  {
    var e := Search(t, m1, o1).value;
    SizeCoversOpcode(t, e, m1, o1, max);
    SameOpcode(t, m1, o1, m2, o2, max);
    SizeGrows(t, e, m1, o1, max, m2, o2, b);
  }

  lemma {:induction false} TermsGrow(t: Table, e: Encoding, m1: Mem, o1: nat, max: nat, cur: nat, k: nat,
                                     m2: Mem, o2: nat, b: nat)
    requires 1 <= k && max < b
    requires var r := ParseTerms(t, e, m1, o1, max, cur, k, GET_SIZE); r.Ok? && r.size == max
    requires Agree(m1, o1, m2, o2, max) && !WholeTerms(t, e, m1, o1, max, cur, k)
    ensures var r := ParseTerms(t, e, m2, o2, b, cur, k, GET_SIZE); r.Ok? ==> max < r.size
    decreases if cur <= max then max - cur else 0, 3, |e.formats| + 1 - k
  {
    hide ParseTerm, WholeTerm;
    if cur < max {
      var f := e.formats[k - 1];
      var s := ParseTerm(t, f, m1, o1 + cur, max - cur).size;
      AgreeShift(m1, o1, m2, o2, max, cur);
      if cur + s == max && !WholeTerm(t, f, m1, o1 + cur, max - cur) {
        TermGrows(t, f, m1, o1 + cur, max - cur, m2, o2 + cur, b - cur);
      } else {
        TermStable(t, f, m1, o1 + cur, max - cur, m2, o2 + cur, b - cur);
        TermsGrow(t, e, m1, o1, max, cur + s, k + 1, m2, o2, b);
      }
    }
  }

  /** An object that fills its bound and is not whole grows or fails under every larger bound, whatever follows. */
  lemma {:induction false} SizeGrows(t: Table, e: Encoding, m1: Mem, o1: nat, max: nat, m2: Mem, o2: nat, b: nat)
    requires 0 < ObjectSize(t, e, m1, o1, max) == max < b
    requires Agree(m1, o1, m2, o2, max) && !Whole(t, e, m1, o1, max)
    ensures var s := ObjectSize(t, e, m2, o2, b); s == 0 || max < s
    decreases max, 1
  {
    SizeCoversOpcode(t, e, m1, o1, max);
    SameOpcode(t, m1, o1, m2, o2, max);
    TermsGrow(t, e, m1, o1, max, OpLength(m1, o1), 1, m2, o2, b);
  }

  /**
   Exactly when a measured object keeps its size wherever its bytes appear again: unless it was
   measured to fill its bound, is not whole, and the bound is raised.
   */
  lemma SizeStableIff(t: Table, e: Encoding, m1: Mem, o1: nat, max: nat, m2: Mem, o2: nat, b: nat)
    requires 0 < ObjectSize(t, e, m1, o1, max) <= b
    requires Agree(m1, o1, m2, o2, ObjectSize(t, e, m1, o1, max))
    ensures ObjectSize(t, e, m2, o2, b) == ObjectSize(t, e, m1, o1, max)
            <==> b <= max || ObjectSize(t, e, m1, o1, max) < max || Whole(t, e, m1, o1, max)
  {
    hide ObjectSize, Whole;
    if b <= max || ObjectSize(t, e, m1, o1, max) < max || Whole(t, e, m1, o1, max) {
      SizeStable(t, e, m1, o1, max, m2, o2, b);
    } else {
      ObjectSizeBound(t, e, m1, o1, max);
      SizeGrows(t, e, m1, o1, max, m2, o2, b);
    }
  }

  lemma ObjectSizeBound(t: Table, e: Encoding, m: Mem, o: nat, max: nat)
    ensures ObjectSize(t, e, m, o, max) <= max
  {
  }

  /** Re-measuring in place, with the bound lowered to anything that holds the object. */
  lemma Remeasure(t: Table, e: Encoding, m: Mem, o: nat, max: nat, b: nat)
    requires 0 < ObjectSize(t, e, m, o, max) <= b <= max
    ensures ObjectSize(t, e, m, o, b) == ObjectSize(t, e, m, o, max)
  {
    SizeStable(t, e, m, o, max, m, o, b);
  }

  /**
   The shortest object that is cut off: a BytePrefix without its byte is accepted with size 1, and
   grows when the bound does.
   */
  lemma CutObjectGrows(t: Table, m: Mem, o: nat)
    requires Read(m, o) == 0x0A
    ensures var e: Encoding := Encoding(0x0A, 0, [U8], false, false, false, false);
            ObjectSize(t, e, m, o, 1) == 1 && ObjectSize(t, e, m, o, 2) == 2 && !Whole(t, e, m, o, 1)
  {
    var e: Encoding := Encoding(0x0A, 0, [U8], false, false, false, false);
    assert ParseTerms(t, e, m, o, 2, 2, 2, GET_SIZE) == Ok(NoType, 0, 2);
    assert ParseTerms(t, e, m, o, 2, 1, 1, GET_SIZE) == Ok(NoType, 0, 2);
  }
}

/**
 What a path search returns, compared with what the walk saw; and a search that stops in the
 assertion of the walk.
 */
module AmlFound {
  import opened Bytes
  import opened AmlParse
  import opened AmlChild
  import opened AmlNamespace
  import opened AmlWalk
  import opened AmlLocality
  import AmlName
  import AmlTable
  import AslName

  /** The handle that opening its own bytes gives. */
  ghost predicate AsOpened(t: Table, m: Mem, h: Handle) {
    h.Node? && 0 < h.size && OpenEx(t, m, h.buf, h.size) == Some(h)
  }

  lemma OpenedAgain(t: Table, m: Mem, o: nat, max: nat)
    requires OpenEx(t, m, o, max).Some?
    ensures AsOpened(t, m, OpenEx(t, m, o, max).value) && OpenEx(t, m, o, max).value.End() <= o + max
  {
    OpenExOpened(t, m, o, max);
  }

  /** A definition is an object that lies inside the walked one and measures what it did in the walk. */
  ghost predicate Measured(t: Table, m: Mem, h: Handle, d: Def) {
    && h.buf <= d.buf && d.buf + d.size <= h.End() && 0 < d.size
    && Search(t, m, d.buf).Some? && !Search(t, m, d.buf).value.isNameChar
    && ObjectSize(t, Search(t, m, d.buf).value, m, d.buf, d.size) == d.size
  }

  lemma {:induction false} WalkMeasured(t: Table, m: Mem, h: Handle, base: Path)
    requires AsOpened(t, m, h)
    ensures forall d :: d in Walk(t, m, h, base).defs ==> Measured(t, m, h, d)
    decreases h.size, 1
  {
    hide ObjectSize, ParseOption;
    if h.enc.inNamespace && ObjectName(t, m, h).Some? && h.enc.hasChild && OffsetAfterLastOption(t, m, h).Some? {
      ListStartsInside(t, m, h);
      var first := OffsetAfterLastOption(t, m, h).value;
      WalkListMeasured(t, m, h, first, Resolve(m, ObjectName(t, m, h).value, base));
    }
  }

  lemma {:induction false} WalkListMeasured(t: Table, m: Mem, h: Handle, cur: nat, base: Path)
    requires h.Node? && h.buf < cur
    ensures forall d :: d in WalkList(t, m, h, cur, base) ==> Measured(t, m, h, d)
    decreases if cur < h.End() then h.End() - cur else 0, 2
  {
    hide ObjectSize, Walk, OpenEx;
    if cur < h.End() && OpenEx(t, m, cur, h.End() - cur).Some? {
      var c := OpenEx(t, m, cur, h.End() - cur).value;
      OpenedAgain(t, m, cur, h.End() - cur);
      OpenedAt(t, m, cur, h.End() - cur);
      WalkMeasured(t, m, c, base);
      WalkListMeasured(t, m, h, cur + c.size, base);
    }
  }

  lemma OpenedAt(t: Table, m: Mem, o: nat, max: nat)
    requires OpenEx(t, m, o, max).Some?
    ensures OpenEx(t, m, o, max).value.buf == o && 0 < OpenEx(t, m, o, max).value.size
  {
  }

  /**
   The search opens what it found once more, up to the end of the searched object rather than
   under the bound of the walk. The handle has the size that the walk saw exactly if the object
   is whole or ends where the searched object ends; otherwise the handle is larger.
   */
  lemma FoundSize(t: Table, m: Mem, c: Handle, q: Path, h: Handle) returns (d: Def)
    requires AsOpened(t, m, c) && FoundIn(t, m, c, q, h)
    ensures d in Walk(t, m, c, []).defs && d.path == q && !d.scope && d.buf == h.buf && h.Node?
    ensures d.size <= h.size
    ensures h.size == d.size <==> d.buf + d.size == c.End() || Whole(t, h.enc, m, d.buf, d.size)
  {
    hide ObjectSize, Whole, Walk;
    WalkMeasured(t, m, c, []);
    var defs := Walk(t, m, c, []).defs;
    var i :| 0 <= i < |defs| && defs[i].path == q && !defs[i].scope && defs[i].buf == h.buf;
    d := defs[i];
    assert Measured(t, m, c, d);
    SizeStableIff(t, h.enc, m, d.buf, d.size, m, d.buf, c.End() - d.buf);
    if !Whole(t, h.enc, m, d.buf, d.size) && d.size < c.End() - d.buf {
      SizeGrows(t, h.enc, m, d.buf, d.size, m, d.buf, c.End() - d.buf);
    }
  }

  /** Every child that enumeration returns is such a handle, so this applies to each child searched. */
  lemma ChildAsOpened(t: Table, m: Mem, parent: Handle, prev: Option<Handle>)
    requires GetChild(t, m, parent, prev).Next?
    ensures AsOpened(t, m, GetChild(t, m, parent, prev).child)
  {
    var p := ChildPlace(t, m, parent, prev).pos;
    OpenedAgain(t, m, p, parent.End() - p);
  }

  /** So a search of a whole table returns handles as the theorem says. */
  lemma FoundSizeInTable(t: Table, m: Mem, root: Handle, prev: Option<Handle>, q: Path, h: Handle) returns (d: Def)
    requires GetChild(t, m, root, prev).Next?
    requires var c := GetChild(t, m, root, prev).child; c.Node? && 0 < c.size && FoundIn(t, m, c, q, h)
    ensures var c := GetChild(t, m, root, prev).child;
            && d in Walk(t, m, c, []).defs && d.path == q && d.buf == h.buf && h.Node? && d.size <= h.size
            && (h.size == d.size <==> d.buf + d.size == c.End() || Whole(t, h.enc, m, d.buf, d.size))
  {
    hide FoundIn, Walk, Whole;
    ChildAsOpened(t, m, root, prev);
    d := FoundSize(t, m, GetChild(t, m, root, prev).child, q, h);
  }

  // ----- the empty path -----

  /** Name (AAAA, Zero) */
  const NAMED_ZERO: Mem := [0x08, 0x41, 0x41, 0x41, 0x41, 0x00]
  const NAME_ROW: Encoding := Encoding(0x08, 0, [Name, Object], false, false, false, true)
  const ZERO_ROW: Encoding := Encoding(0x00, 0, [], false, false, false, false)

  /** A row is found if no earlier one has its opcode. */
  lemma {:induction false} LookupAt(t: Table, i: nat)
    requires i < |t| && forall j :: 0 <= j < i ==> t[j].op != t[i].op
    ensures Lookup(t, t[i].op, t[i].sub) == Some(t[i])
  {
    if 0 < i {
      LookupAt(t[1..], i - 1);
    }
  }

  lemma Rows()
    ensures Search(AmlTable.BYTE_ENCODING, NAMED_ZERO, 0) == Some(NAME_ROW)
    ensures Search(AmlTable.BYTE_ENCODING, NAMED_ZERO, 5) == Some(ZERO_ROW)
  {
    var t := AmlTable.BYTE_ENCODING;
    assert t[0] == ZERO_ROW && t[3] == NAME_ROW;
    LookupAt(t, 0);
    LookupAt(t, 3);
  }

  lemma NameOfZero()
    ensures AmlName.NameSize(NAMED_ZERO, 1) == Some(4)
  {
    var m := NAMED_ZERO;
    assert AmlName.ParentRun(m, 1) == 0;
    assert AmlName.IsNameSeg(m, 1);
    assert AmlName.NameSegs(m, 1, 1) by {
      assert AmlName.NameSegs(m, 5, 0);
    }
  }

  lemma NameParses(t: Table)
    ensures ParseTerm(t, Name, NAMED_ZERO, 1, 5) == Ok(NameString, 0, 4)
  {
    NameOfZero();
  }

  lemma ZeroParses(t: Table)
    requires Search(t, NAMED_ZERO, 5) == Some(ZERO_ROW)
    ensures ParseTerm(t, Object, NAMED_ZERO, 5, 1) == Ok(Child, 0, 1)
  {
    assert ParseTerms(t, ZERO_ROW, NAMED_ZERO, 5, 1, 1, 1, GET_SIZE) == Ok(NoType, 0, 1);
    assert ObjectSize(t, ZERO_ROW, NAMED_ZERO, 5, 1) == 1;
  }

  lemma NamedZeroParses(t: Table)
    requires Search(t, NAMED_ZERO, 0) == Some(NAME_ROW) && Search(t, NAMED_ZERO, 5) == Some(ZERO_ROW)
    ensures OpenEx(t, NAMED_ZERO, 0, 6) == Some(Handle.Node(0, 6, NAME_ROW))
    ensures ObjectName(t, NAMED_ZERO, Handle.Node(0, 6, NAME_ROW)) == Some(1)
  {
    hide ParseTerm, Search;
    var m, e := NAMED_ZERO, NAME_ROW;
    ZeroParses(t);
    NameParses(t);
    assert ParseTerms(t, e, m, 0, 6, 6, 3, GET_SIZE) == Ok(NoType, 0, 6);
    assert ParseTerms(t, e, m, 0, 6, 5, 2, GET_SIZE) == Ok(NoType, 0, 6);
    assert ParseTerms(t, e, m, 0, 6, 1, 1, GET_SIZE) == Ok(NoType, 0, 6);
    assert LastName(e.formats) == 1;
    assert ParseTerms(t, e, m, 0, 6, 1, 1, 1) == Ok(NameString, 1, 4);
  }

  /**
   A search from a handle for the empty path stops in the assertion of the walk: the empty text
   converts to a name without segments, the handle of Name (AAAA, Zero) is an object of the
   driver's table, and its walk has a first child.
   */
  method EmptyPathAsserts() returns (h: Option<Handle>, st: AmlWalk.Status)
    ensures h.Some? && h == OpenEx(AmlTable.BYTE_ENCODING, NAMED_ZERO, 0, |NAMED_ZERO|)
    ensures st == AssertFailed
  {
    hide Resolve, AmlName.NameSize, OpenEx;
    var t, m := AmlTable.BYTE_ENCODING, NAMED_ZERO;
    Rows();
    NamedZeroParses(t);
    AmlTable.TableIsGood();
    h := OpenEx(t, m, 0, |m|);
    WalkOfZero(t);
    var path := AslName.NameFromAslName([]);
    EmptyPathConverts();
    SearchAsserts(path.value, false, Walk(t, m, h.value, []).defs);
    var buf;
    st, buf := FindPath(t, m, h.value, path.value, false);
  }

  lemma EmptyPathConverts()
    ensures AslName.Convert([]) == Some([0])
  {
    assert AmlName.PrefixLength([], 0) == 0;
    assert AslName.PathSegs([]) == Some([]);
    assert AslName.AmlBytes([], []) == [0];
  }

  lemma WalkOfZero(t: Table)
    requires ObjectName(t, NAMED_ZERO, Handle.Node(0, 6, NAME_ROW)) == Some(1)
    ensures var v := Walk(t, NAMED_ZERO, Handle.Node(0, 6, NAME_ROW), []);
            v.ok && NoRedefinition(v.defs) && SearchBase(false, v.defs).Some?
  {
    hide ObjectName;
    var m, h := NAMED_ZERO, Handle.Node(0, 6, NAME_ROW);
    ZeroPath();
    var d := Def(Resolve(m, 1, []), 0, false, 6);
    assert Walk(t, m, h, []).defs == [d];
    assert FirstSeg(None, [d]) == FirstSeg(Some(d.path[0]), [d][1..]);
  }

  lemma ZeroPath()
    ensures |Resolve(NAMED_ZERO, 1, [])| == 1
  {
    assert AmlName.ParentRun(NAMED_ZERO, 1) == 0;
    assert AmlName.ParseSegHeader(NAMED_ZERO, 1) == AmlName.SegHeader(0, 1);
    assert Segs(NAMED_ZERO, 1, 1) == [SegAt(NAMED_ZERO, 1)] + Segs(NAMED_ZERO, 5, 0);
  }
}

/** A table in which a path search returns an object with another size than the walk saw. */
module AmlTruncated {
  import opened Bytes
  import opened AmlParse
  import opened AmlChild
  import opened AmlNamespace
  import opened AmlWalk
  import opened AmlFound
  import AmlName
  import AmlTable
  import AmlWalkComplete

  /** Scope (CCCC) { Scope (BBBB) { Name (AAAA, a BytePrefix whose byte is cut off) } Zero } */
  const NESTED: Mem := [
    0x10, 0x12, 0x43, 0x43, 0x43, 0x43,
    0x10, 0x0B, 0x42, 0x42, 0x42, 0x42,
    0x08, 0x41, 0x41, 0x41, 0x41, 0x0A,
    0x00
  ]

  const SCOPE_ROW: Encoding := Encoding(0x10, 0, [Name], true, false, true, true)
  const BYTE_ROW: Encoding := Encoding(0x0A, 0, [U8], false, false, false, false)

  const OUTER: Handle := Handle.Node(0, 19, SCOPE_ROW)
  const INNER: Handle := Handle.Node(6, 12, SCOPE_ROW)
  const WALKED: Handle := Handle.Node(12, 6, NAME_ROW)
  const FOUND: Handle := Handle.Node(12, 7, NAME_ROW)

  ghost predicate NestedRows(t: Table) {
    && Search(t, NESTED, 0) == Some(SCOPE_ROW) && Search(t, NESTED, 6) == Some(SCOPE_ROW)
    && Search(t, NESTED, 12) == Some(NAME_ROW) && Search(t, NESTED, 17) == Some(BYTE_ROW)
  }

  lemma LookupRow(i: nat, e: Encoding)
    requires (i == 3 && e == NAME_ROW) || (i == 4 && e == BYTE_ROW) || (i == 9 && e == SCOPE_ROW)
    ensures Lookup(AmlTable.BYTE_ENCODING, e.op, 0) == Some(e)
  {
    var t := AmlTable.BYTE_ENCODING;
    assert t[i] == e;
    LookupAt(t, i);
  }

  lemma RowsOfTable()
    ensures NestedRows(AmlTable.BYTE_ENCODING)
  {
    hide AmlTable.BYTE_ENCODING, Lookup;
    LookupRow(3, NAME_ROW);
    LookupRow(4, BYTE_ROW);
    LookupRow(9, SCOPE_ROW);
  }

  // ----- names of one segment -----

  lemma OneSegment(m: Mem, o: nat, base: Path)
    requires AmlName.IsNameSeg(m, o)
    ensures AmlName.NameSize(m, o) == Some(4) && Resolve(m, o, base) == base + [SegAt(m, o)]
  {
    assert AmlName.ParentRun(m, o) == 0;
    assert AmlName.ParseSegHeader(m, o) == AmlName.SegHeader(0, 1);
    assert AmlName.NameSegs(m, o, 1) by {
      assert AmlName.NameSegs(m, o + 4, 0);
    }
    assert Segs(m, o, 1) == [SegAt(m, o)] + Segs(m, o + 4, 0);
  }

  lemma SegmentTerm(t: Table, m: Mem, o: nat, max: nat)
    requires AmlName.IsNameSeg(m, o) && 4 <= max
    ensures ParseTerm(t, Name, m, o, max) == Ok(NameString, 0, 4)
  {
    OneSegment(m, o, []);
  }

  // ----- the scopes -----

  /** A scope with a one-segment name and a one-byte PkgLength. */
  lemma ScopeParses(t: Table, m: Mem, o: nat, size: nat, max: nat)
    requires Search(t, m, o) == Some(SCOPE_ROW) && Read(m, o) == 0x10 && AmlName.IsNameSeg(m, o + 2)
    requires Read(m, o + 1) == size - 1 && 6 <= size <= 63 && size <= max
    ensures OpenEx(t, m, o, max) == Some(Handle.Node(o, size, SCOPE_ROW))
    ensures ObjectName(t, m, Handle.Node(o, size, SCOPE_ROW)) == Some(o + 2)
    ensures OffsetAfterLastOption(t, m, Handle.Node(o, size, SCOPE_ROW)) == Some(o + 6)
  {
    hide ParseTerm;
    var e := SCOPE_ROW;
    assert PkgLength(m, o + 1) == Pkg(1, size - 1);
    SegmentTerm(t, m, o + 2, size - 2);
    assert ParseTerms(t, e, m, o, size, 6, 2, GET_SIZE) == Ok(NoType, 0, 6);
    assert ParseTerms(t, e, m, o, size, 2, 1, GET_SIZE) == Ok(NoType, 0, 6);
    assert ParseTerms(t, e, m, o, size, 2, 1, 1) == Ok(NameString, 2, 4);
    assert LastName(e.formats) == 1;
    assert ParseOption(t, e, m, o, max, GET_SIZE) == Ok(NoType, 0, size);
    assert ObjectSize(t, e, m, o, max) == size;
    assert ParseOption(t, e, m, o, size, 1) == Ok(NameString, 2, 4);
  }

  // ----- the cut-off object, under both bounds -----

  lemma ByteTerm(t: Table, max: nat)
    requires NestedRows(t) && 1 <= max <= 2
    ensures ParseTerm(t, Object, NESTED, 17, max) == Ok(Child, 0, max)
  {
    if max == 1 {
      assert ParseTerms(t, BYTE_ROW, NESTED, 17, 1, 1, 1, GET_SIZE) == Ok(NoType, 0, 1);
    } else {
      assert ParseTerms(t, BYTE_ROW, NESTED, 17, 2, 2, 2, GET_SIZE) == Ok(NoType, 0, 2);
      assert ParseTerms(t, BYTE_ROW, NESTED, 17, 2, 1, 1, GET_SIZE) == Ok(NoType, 0, 2);
    }
    assert ObjectSize(t, BYTE_ROW, NESTED, 17, max) == max;
  }

  lemma NameTerms(t: Table, max: nat)
    requires NestedRows(t) && 6 <= max <= 7
    ensures ParseTerms(t, NAME_ROW, NESTED, 12, max, 1, 1, GET_SIZE) == Ok(NoType, 0, max)
    ensures ParseTerms(t, NAME_ROW, NESTED, 12, max, 1, 1, 1) == Ok(NameString, 1, 4)
  {
    hide ParseTerm, Search;
    ByteTerm(t, max - 5);
    SegmentTerm(t, NESTED, 13, max - 1);
    assert ParseTerms(t, NAME_ROW, NESTED, 12, max, max, 3, GET_SIZE) == Ok(NoType, 0, max);
    assert ParseTerms(t, NAME_ROW, NESTED, 12, max, 5, 2, GET_SIZE) == Ok(NoType, 0, max);
  }

  lemma NameGrows(t: Table, max: nat)
    requires NestedRows(t) && 6 <= max <= 7
    ensures OpenEx(t, NESTED, 12, max) == Some(Handle.Node(12, max, NAME_ROW))
    ensures ObjectName(t, NESTED, Handle.Node(12, max, NAME_ROW)) == Some(13)
  {
    hide ParseTerms, Search;
    NameTerms(t, max);
    assert ParseOption(t, NAME_ROW, NESTED, 12, max, GET_SIZE) == Ok(NoType, 0, max);
    assert LastName(NAME_ROW.formats) == 1;
  }

  // ----- the walk -----

  lemma WalkOfName(t: Table, base: Path)
    requires NestedRows(t)
    ensures Walk(t, NESTED, WALKED, base) == Visit(true, [Def(base + [SegAt(NESTED, 13)], 12, false, 6)])
  {
    hide ObjectName;
    NameGrows(t, 6);
    OneSegment(NESTED, 13, base);
  }

  lemma WalkOfInner(t: Table, base: Path)
    requires NestedRows(t)
    ensures Def(base + [SegAt(NESTED, 8)] + [SegAt(NESTED, 13)], 12, false, 6) in Walk(t, NESTED, INNER, base).defs
  {
    hide ObjectName, OffsetAfterLastOption, OpenEx;
    ScopeParses(t, NESTED, 6, 12, 12);
    OneSegment(NESTED, 8, base);
    var q := base + [SegAt(NESTED, 8)];
    NameGrows(t, 6);
    WalkOfName(t, q);
    assert Def(q + [SegAt(NESTED, 13)], 12, false, 6) in WalkList(t, NESTED, INNER, 12, q);
  }

  lemma WalkOfOuter(t: Table) returns (d: Def)
    requires NestedRows(t)
    ensures d in Walk(t, NESTED, OUTER, []).defs && d.buf == 12 && d.size == 6 && !d.scope
  {
    hide ObjectName, OffsetAfterLastOption, OpenEx, Walk, WalkList, SegAt, Resolve;
    ScopeParses(t, NESTED, 0, 19, 19);
    ScopeParses(t, NESTED, 6, 12, 13);
    OneSegment(NESTED, 2, []);
    var q := [] + [SegAt(NESTED, 2)];
    WalkOfInner(t, q);
    d := Def(q + [SegAt(NESTED, 8)] + [SegAt(NESTED, 13)], 12, false, 6);
    AmlWalkComplete.OneMore(t, NESTED, OUTER, INNER, q);
    OuterDefs(t, q, d);
  }

  lemma OuterDefs(t: Table, q: Path, d: Def)
    requires ObjectName(t, NESTED, OUTER) == Some(2) && OffsetAfterLastOption(t, NESTED, OUTER) == Some(6)
    requires Resolve(NESTED, 2, []) == q && d in WalkList(t, NESTED, OUTER, 6, q)
    ensures d in Walk(t, NESTED, OUTER, []).defs
  {
    hide ObjectName, OffsetAfterLastOption, WalkList, Resolve;
  }

  /**
   The outer scope is an object of the driver's table that fills the bytes. The walk sees the name
   object with 6 bytes, ending where the inner scope ends; the search returns it with 7.
   */
  lemma FoundLarger() returns (d: Def)
    ensures AsOpened(AmlTable.BYTE_ENCODING, NESTED, OUTER)
    ensures d in Walk(AmlTable.BYTE_ENCODING, NESTED, OUTER, []).defs && d.size == 6
    ensures FoundIn(AmlTable.BYTE_ENCODING, NESTED, OUTER, d.path, FOUND) && FOUND.buf == d.buf && FOUND.size == 7
  {
    hide OpenEx, Walk, AmlTable.BYTE_ENCODING;
    var t := AmlTable.BYTE_ENCODING;
    RowsOfTable();
    ScopeParses(t, NESTED, 0, 19, 19);
    NameGrows(t, 7);
    d := WalkOfOuter(t);
    assert DefinedAt(Walk(t, NESTED, OUTER, []).defs, d.path, 12);
  }
}

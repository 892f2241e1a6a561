/** The encoding table of the parser, row by row, and the facts that the traversals rely on. */
module AmlTable {
  import opened Bytes
  import AmlName
  import opened AmlParse
  import AmlChild
  import AmlWalk

  function Plain(op: byte, sub: byte, formats: seq<Format>): Encoding
    requires |formats| <= 6
  {
    Encoding(op, sub, formats, false, false, false, false)
  }

  function Named(op: byte, sub: byte, formats: seq<Format>): Encoding
    requires |formats| <= 6
  {
    Encoding(op, sub, formats, false, false, false, true)
  }

  function Package(op: byte, sub: byte, formats: seq<Format>): Encoding
    requires |formats| <= 6
  {
    Encoding(op, sub, formats, true, false, false, false)
  }

  function Parent(op: byte, sub: byte, formats: seq<Format>): Encoding
    requires |formats| <= 6
  {
    Encoding(op, sub, formats, true, false, true, false)
  }

  function NamedParent(op: byte, sub: byte, formats: seq<Format>): Encoding
    requires |formats| <= 6
  {
    Encoding(op, sub, formats, true, false, true, true)
  }

  function NameChar(op: byte): Encoding {
    Encoding(op, 0, [], false, true, false, false)
  }

  const DATA_AND_NAMED: Table := [
    Plain(0x00, 0, []), Plain(0x01, 0, []), Named(0x06, 0, [Name, Name]),
    Named(0x08, 0, [Name, Object]),
    Plain(0x0A, 0, [U8]), Plain(0x0B, 0, [U16]), Plain(0x0C, 0, [U32]), Plain(0x0D, 0, [Str]),
    Plain(0x0E, 0, [U64])
  ]

  const PACKAGES: Table := [
    NamedParent(0x10, 0, [Name]), Package(0x11, 0, [Object]),
    Parent(0x12, 0, [U8]), Parent(0x13, 0, [Object]), NamedParent(0x14, 0, [Name, U8]),
    NameChar(0x2E), NameChar(0x2F)
  ]

  const LETTERS: Table := seq(26, i requires 0 <= i < 26 => NameChar(0x41 + i))

  const EXTENDED: Table := [
    Named(0x5B, 0x01, [Name, U8]), Named(0x5B, 0x02, [Name]), Plain(0x5B, 0x12, [Object, Object]),
    Plain(0x5B, 0x13, [Object, Object, Object, Name]),
    Plain(0x5B, 0x1F, [Object, Object, Object, Object, Object, Object]),
    Plain(0x5B, 0x20, [Name, Object]), Plain(0x5B, 0x21, [Object]), Plain(0x5B, 0x22, [Object]),
    Plain(0x5B, 0x23, [Object, U16]), Plain(0x5B, 0x24, [Object]),
    Plain(0x5B, 0x25, [Object, Object]), Plain(0x5B, 0x26, [Object]), Plain(0x5B, 0x27, [Object]),
    Plain(0x5B, 0x28, [Object, Object])
  ]

  const REGIONS: Table := [
    Plain(0x5B, 0x29, [Object, Object]),
    Plain(0x5B, 0x2A, [Object]), Plain(0x5B, 0x30, []), Plain(0x5B, 0x31, []),
    Plain(0x5B, 0x32, [U8, U32, Object]), Plain(0x5B, 0x33, []),
    Named(0x5B, 0x80, [Name, U8, Object, Object]), Package(0x5B, 0x81, [Name, U8]),
    NamedParent(0x5B, 0x82, [Name]), NamedParent(0x5B, 0x83, [Name, U8, U32, U8]),
    NamedParent(0x5B, 0x84, [Name, U8, U16]), NamedParent(0x5B, 0x85, [Name]),
    Package(0x5B, 0x86, [Name, Name, U8]), Package(0x5B, 0x87, [Name, Name, Object, U8]),
    Named(0x5B, 0x88, [Name, Object, Object, Object])
  ]

  const NAMES_AND_LOCALS: Table := [
    NameChar(0x5C), NameChar(0x5E), NameChar(0x5F), Plain(0x60, 0, []), Plain(0x61, 0, []),
    Plain(0x62, 0, []), Plain(0x63, 0, []), Plain(0x64, 0, []), Plain(0x65, 0, []),
    Plain(0x66, 0, []), Plain(0x67, 0, [])
  ]

  const ARGUMENTS: Table := [
    Plain(0x68, 0, []), Plain(0x69, 0, []),
    Plain(0x6A, 0, []), Plain(0x6B, 0, []), Plain(0x6C, 0, []), Plain(0x6D, 0, []),
    Plain(0x6E, 0, [])
  ]

  const OPERATORS: Table := [
    Plain(0x70, 0, [Object, Object]), Plain(0x71, 0, [Object]),
    Plain(0x72, 0, [Object, Object, Object]), Plain(0x73, 0, [Object, Object, Object]),
    Plain(0x74, 0, [Object, Object, Object]), Plain(0x75, 0, [Object]), Plain(0x76, 0, [Object]),
    Plain(0x77, 0, [Object, Object, Object]), Plain(0x78, 0, [Object, Object, Object, Object]),
    Plain(0x79, 0, [Object, Object, Object]), Plain(0x7A, 0, [Object, Object, Object]),
    Plain(0x7B, 0, [Object, Object, Object]), Plain(0x7C, 0, [Object, Object, Object]),
    Plain(0x7D, 0, [Object, Object, Object]), Plain(0x7E, 0, [Object, Object, Object]),
    Plain(0x7F, 0, [Object, Object, Object])
  ]

  const CONVERSIONS: Table := [
    Plain(0x80, 0, [Object, Object]), Plain(0x81, 0, [Object, Object]),
    Plain(0x82, 0, [Object, Object]), Plain(0x83, 0, [Object]),
    Plain(0x84, 0, [Object, Object, Object]), Plain(0x85, 0, [Object, Object, Object]),
    Plain(0x86, 0, [Object, Object]), Plain(0x87, 0, [Object]),
    Plain(0x88, 0, [Object, Object, Object]),
    Plain(0x89, 0, [Object, U8, Object, U8, Object, Object]),
    Plain(0x8A, 0, [Object, Object, Name]), Plain(0x8B, 0, [Object, Object, Name]),
    Plain(0x8C, 0, [Object, Object, Name]), Plain(0x8D, 0, [Object, Object, Name]),
    Plain(0x8E, 0, [Object]), Plain(0x8F, 0, [Object, Object, Name])
  ]

  const COMPARISONS: Table := [
    Plain(0x90, 0, [Object, Object]), Plain(0x91, 0, [Object, Object]), Plain(0x92, 0, [Object]),
    Plain(0x93, 0, [Object, Object]), Plain(0x94, 0, [Object, Object]),
    Plain(0x95, 0, [Object, Object]), Plain(0x96, 0, [Object, Object]),
    Plain(0x97, 0, [Object, Object]), Plain(0x98, 0, [Object, Object]),
    Plain(0x99, 0, [Object, Object]), Plain(0x9C, 0, [Object, Object, Object]),
    Plain(0x9D, 0, [Object, Object]), Plain(0x9E, 0, [Object, Object, Object]), Plain(0x9F, 0, [])
  ]

  const STATEMENTS: Table := [
    Parent(0xA0, 0, [Object]), Parent(0xA1, 0, []), Parent(0xA2, 0, [Object]), Plain(0xA3, 0, []),
    Plain(0xA4, 0, [Object]), Plain(0xA5, 0, []), Plain(0xCC, 0, []), Plain(0xFF, 0, [])
  ]

  const BYTE_ENCODING: Table :=
    DATA_AND_NAMED + (PACKAGES + (LETTERS + (EXTENDED + (REGIONS + (NAMES_AND_LOCALS + (ARGUMENTS
    + (OPERATORS + (CONVERSIONS + (COMPARISONS + STATEMENTS)))))))))

  /** A byte that can start a non-null name. */
  predicate StartsName(c: byte) {
    || AmlName.IsLeadName(c) || c == AmlName.ROOT_CHAR || c == AmlName.PARENT_CHAR
    || c == AmlName.DUAL_PREFIX || c == AmlName.MULTI_PREFIX
  }

  /**
   Rows in the namespace carry a name; only rows with a PkgLength have children; the name
   characters are the bytes that start a name; only the extension prefix has a second byte.
   */
  ghost predicate GoodRow(e: Encoding) {
    && AmlWalk.NamedRow(e)
    && (e.hasChild ==> e.hasPkg)
    && (e.isNameChar <==> StartsName(e.op))
    && (e.isNameChar ==> e.formats == [] && e.sub == 0)
    && (e.sub != 0 ==> e.op == EXT_OP)
  }

  ghost predicate GoodRows(t: Table) {
    forall e :: e in t ==> GoodRow(e)
  }

  /** What makes a row good that is not a name character. */
  ghost predicate Ordinary(op: byte, sub: byte) {
    !StartsName(op) && (sub != 0 ==> op == EXT_OP)
  }

  lemma GoodRowKinds()
    ensures forall op, sub, f: seq<Format> :: Ordinary(op, sub) && |f| <= 6 ==>
              GoodRow(Plain(op, sub, f)) && GoodRow(Package(op, sub, f)) && GoodRow(Parent(op, sub, f))
    ensures forall op, sub, f: seq<Format> :: Ordinary(op, sub) && |f| <= 6 && Name in f ==>
              GoodRow(Named(op, sub, f)) && GoodRow(NamedParent(op, sub, f))
    ensures forall op :: StartsName(op) ==> GoodRow(NameChar(op))
  {
  }

  lemma DataAndNamedGood()
    ensures GoodRows(DATA_AND_NAMED)
  {
    hide GoodRow;
    GoodRowKinds();
  }

  lemma PackagesGood()
    ensures GoodRows(PACKAGES)
  {
    hide GoodRow;
    GoodRowKinds();
  }

  lemma LettersGood()
    ensures GoodRows(LETTERS)
  {
    hide GoodRow;
    GoodRowKinds();
  }

  lemma ExtendedGood()
    ensures GoodRows(EXTENDED)
  {
    hide GoodRow;
    GoodRowKinds();
  }

  lemma RegionsGood()
    ensures GoodRows(REGIONS)
  {
    hide GoodRow;
    GoodRowKinds();
  }

  lemma NamesAndLocalsGood()
    ensures GoodRows(NAMES_AND_LOCALS)
  {
    hide GoodRow;
    GoodRowKinds();
  }

  lemma ArgumentsGood()
    ensures GoodRows(ARGUMENTS)
  {
    hide GoodRow;
    GoodRowKinds();
  }

  lemma OperatorsGood()
    ensures GoodRows(OPERATORS)
  {
    hide GoodRow;
    GoodRowKinds();
  }

  lemma ConversionsGood()
    ensures GoodRows(CONVERSIONS)
  {
    hide GoodRow;
    GoodRowKinds();
  }

  lemma ComparisonsGood()
    ensures GoodRows(COMPARISONS)
  {
    hide GoodRow;
    GoodRowKinds();
  }

  lemma StatementsGood()
    ensures GoodRows(STATEMENTS)
  {
    hide GoodRow;
    GoodRowKinds();
  }

  /** Every row is well formed; in particular the namespace walk's condition holds. */
  lemma TableIsGood()
    ensures GoodRows(BYTE_ENCODING) && AmlWalk.NamedTable(BYTE_ENCODING)
  {
    hide GoodRow;
    DataAndNamedGood();
    PackagesGood();
    LettersGood();
    ExtendedGood();
    RegionsGood();
    NamesAndLocalsGood();
    ArgumentsGood();
    OperatorsGood();
    ConversionsGood();
    ComparisonsGood();
    StatementsGood();
    assert forall e :: GoodRow(e) ==> AmlWalk.NamedRow(e) by {
      GoodRowsAreNamed();
    }
  }

  lemma GoodRowsAreNamed()
    ensures forall e :: GoodRow(e) ==> AmlWalk.NamedRow(e)
  {
  }

  lemma {:induction false} LookupFinds(t: Table, op: byte, sub: byte, e: Encoding)
    requires e in t && e.op == op && e.sub == sub
    ensures Lookup(t, op, sub).Some?
  {
    if !(t[0].op == op && t[0].sub == sub) {
      LookupFinds(t[1..], op, sub, e);
    }
  }

  lemma {:induction false} LookupMatches(t: Table, op: byte, sub: byte)
    requires Lookup(t, op, sub).Some?
    ensures Lookup(t, op, sub).value.op == op
  {
    if !(t[0].op == op && t[0].sub == sub) {
      LookupMatches(t[1..], op, sub);
    }
  }

  lemma PrefixRow(c: byte)
    requires c == AmlName.DUAL_PREFIX || c == AmlName.MULTI_PREFIX
    ensures NameChar(c) in PACKAGES
  {
  }

  lemma OtherRow(c: byte)
    requires c == AmlName.ROOT_CHAR || c == AmlName.PARENT_CHAR || c == AmlName.UNDERSCORE
    ensures NameChar(c) in NAMES_AND_LOCALS
  {
  }

  lemma LeadRow(c: byte)
    requires StartsName(c)
    ensures NameChar(c) in BYTE_ENCODING
  {
    hide DATA_AND_NAMED, PACKAGES, LETTERS, EXTENDED, REGIONS, NAMES_AND_LOCALS, ARGUMENTS, OPERATORS, CONVERSIONS, COMPARISONS, STATEMENTS;
    if 0x41 <= c <= 0x5A {
      LetterRow(c);
    } else if c == AmlName.DUAL_PREFIX || c == AmlName.MULTI_PREFIX {
      PrefixRow(c);
    } else {
      OtherRow(c);
    }
  }

  lemma LetterRow(c: byte)
    requires 0x41 <= c <= 0x5A
    ensures NameChar(c) in LETTERS
  {
    assert NameChar(c) == LETTERS[c - 0x41];
  }

  /** The table sends an object to the name parser exactly when its first byte can start a name. */
  lemma DispatchesNames(m: Mem, o: nat)
    ensures StartsName(Read(m, o)) <==> Search(BYTE_ENCODING, m, o).Some? && Search(BYTE_ENCODING, m, o).value.isNameChar
  {
    hide BYTE_ENCODING;
    var op := Read(m, o);
    TableIsGood();
    if StartsName(op) {
      LeadRow(op);
      LookupFinds(BYTE_ENCODING, op, 0, NameChar(op));
    }
    if Search(BYTE_ENCODING, m, o).Some? {
      var sub := if op == EXT_OP then At(m, o, 1) else 0;
      AmlWalk.LookupInTable(BYTE_ENCODING, op, sub);
      LookupMatches(BYTE_ENCODING, op, sub);
      assert GoodRow(Search(BYTE_ENCODING, m, o).value);
    }
  }

  /** No accepted name is taken for anything else. */
  lemma NamesAreDispatched(m: Mem, o: nat)
    requires AmlName.NameSize(m, o).Some?
    ensures Search(BYTE_ENCODING, m, o).Some? && Search(BYTE_ENCODING, m, o).value.isNameChar
  {
    DispatchesNames(m, o);
  }

  /** So no name is opened as an object. */
  lemma NamesAreNotOpened(m: Mem, o: nat, max: nat)
    requires AmlName.NameSize(m, o).Some?
    ensures AmlChild.OpenEx(BYTE_ENCODING, m, o, max) == None
  {
    hide BYTE_ENCODING;
    NamesAreDispatched(m, o);
  }
}

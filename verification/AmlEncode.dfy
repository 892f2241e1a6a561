/**
 Objects written as bytes by the rules of sections 20.2.2 to 20.2.5 of ACPI 6.5, and the proof that
 the parser reads back what was written: the size, every option, and where the object list starts.
 */
module AmlEncode {
  import opened Bytes
  import opened AmlParse
  import opened AmlChild
  import opened AslRoundTrip
  import AmlName
  import AslPath

  // ----- bytes at a place -----

  /** The bytes `b` lie at `o`. */
  ghost predicate HasAt(m: Mem, o: nat, b: Mem) {
    o + |b| <= |m| && m[o..o + |b|] == b
  }

  lemma HasParts(m: Mem, o: nat, a: Mem, b: Mem)
    requires HasAt(m, o, a + b)
    ensures HasAt(m, o, a) && HasAt(m, o + |a|, b)
  {
    var w := m[o..o + |a + b|];
    assert w[..|a|] == a && w[|a|..] == b;
    assert m[o..o + |a|] == w[..|a|] && m[o + |a|..o + |a| + |b|] == w[|a|..];
  }

  lemma HasByte(m: Mem, o: nat, b: Mem, i: nat)
    requires HasAt(m, o, b) && i < |b|
    ensures Read(m, o + i) == b[i]
  {
    assert m[o..o + |b|][i] == b[i];
  }

  // ----- PkgLength -----

  /** Lengths below 64 fit one byte; every further byte adds eight bits to the four of the first. */
  predicate Fits(n: nat, width: nat) {
    match width
    case 1 => n < 64
    case 2 => n < 0x1000
    case 3 => n < 0x10_0000
    case 4 => n < 0x1000_0000
    case _ => false
  }

  /** The length in `width` bytes: their number and the low bits first, then the rest, low byte first. */
  function EncodePkg(n: nat, width: nat): Mem {
    match width
    case 1 => [n % 64]
    case 2 => [0x40 + n % 16, n / 16 % 256]
    case 3 => [0x80 + n % 16, n / 16 % 256, n / 0x1000 % 256]
    case _ => [0xC0 + n % 16, n / 16 % 256, n / 0x1000 % 256, n / 0x10_0000 % 256]
  }

  lemma PkgBytes(n: nat)
    ensures n == n % 16 + 16 * (n / 16 % 256) + 0x1000 * (n / 0x1000 % 256) + 0x10_0000 * (n / 0x10_0000)
  {
    assert n / 0x1000 == n / 16 / 256 && n / 0x10_0000 == n / 0x1000 / 256;
  }

  /** The first byte gives the width back, and the low bits if more bytes follow. */
  lemma LeadByte(n: nat, width: nat)
    requires Fits(n, width)
    ensures EncodePkg(n, width)[0] / 64 == width - 1
    ensures 1 < width ==> EncodePkg(n, width)[0] % 16 == n % 16
  {
  }

  /** The other bytes hold the rest. */
  lemma PkgValue(n: nat, width: nat)
    requires Fits(n, width) && 1 < width
    ensures var b := EncodePkg(n, width);
            n == (b[1] + (if 2 < width then b[2] as int * 0x100 else 0) + (if 3 < width then b[3] as int * 0x1_0000 else 0)) * 16 + n % 16
  {
    PkgBytes(n);
  }

  /** Any length in any width that holds it is read back. */
  lemma PkgRoundTrip(m: Mem, o: nat, n: nat, width: nat)
    requires Fits(n, width) && HasAt(m, o, EncodePkg(n, width))
    ensures PkgLength(m, o) == Pkg(width, n)
  {
    hide HasAt;
    var b := EncodePkg(n, width);
    HasByte(m, o, b, 0);
    LeadByte(n, width);
    if 1 < width {
      hide EncodePkg;
      EncodedWidth(n, width);
      PkgValue(n, width);
      HasByte(m, o, b, 1);
      if 2 < width { HasByte(m, o, b, 2); }
      if 3 < width { HasByte(m, o, b, 3); }
    }
  }

  // ----- objects as trees -----

  datatype Term =
    | Num(data: Mem)                    // an integer of fixed width
    | Text(text: Mem)                   // a string
    | NameTerm(name: Canon)             // a name, also in place of an object
    | ObjTerm(obj: Obj)

  datatype Terms = Nil | Cons(head: Term, tail: Terms)

  /** `body` and `width` are those of a PkgLength object. */
  datatype Obj = Obj(enc: Encoding, terms: Terms, body: Mem, width: nat)

  function Width(f: Format): nat {
    match f
    case U8 => 1
    case U16 => 2
    case U32 => 4
    case U64 => 8
    case _ => 0
  }

  function OpBytes(e: Encoding): (r: Mem)
    ensures 0 < |r|
  {
    if e.op == EXT_OP then [e.op, e.sub] else [e.op]
  }

  /** The table knows the row by its opcode. */
  predicate Listed(t: Table, e: Encoding) {
    Lookup(t, e.op, if e.op == EXT_OP then e.sub else 0) == Some(e) && !e.isNameChar
  }

  /** The table sends the name to the name parser. */
  predicate Dispatched(t: Table, c: Canon)
    requires IsCanon(c)
  {
    var first := AslPath.NameBytes(c)[0];
    first != EXT_OP && Lookup(t, first, 0).Some? && Lookup(t, first, 0).value.isNameChar
  }

  predicate TermOk(t: Table, f: Format, x: Term)
    decreases x
  {
    match f
    case Name => x.NameTerm? && IsCanon(x.name)
    case Str => x.Text? && 0 !in x.text
    case Object =>
      (x.ObjTerm? && ObjOk(t, x.obj)) || (x.NameTerm? && IsCanon(x.name) && Dispatched(t, x.name))
    case _ => x.Num? && |x.data| == Width(f)
  }

  /** The terms fit the formats from number `k` on. */
  predicate TermsOk(t: Table, e: Encoding, k: nat, xs: Terms)
    requires 1 <= k
    decreases xs
  {
    match xs
    case Nil => k == |e.formats| + 1
    case Cons(x, rest) => k <= |e.formats| && TermOk(t, e.formats[k - 1], x) && TermsOk(t, e, k + 1, rest)
  }

  function TermBytes(x: Term): Mem
    decreases x, 0
  {
    match x
    case Num(data) => data
    case Text(text) => text + [0]
    case NameTerm(c) => if IsCanon(c) then AslPath.NameBytes(c) else []
    case ObjTerm(y) => ObjBytes(y)
  }

  function TermsBytes(xs: Terms): Mem
    decreases xs, 0
  {
    match xs
    case Nil => []
    case Cons(x, rest) => TermBytes(x) + TermsBytes(rest)
  }

  /** What the PkgLength counts: itself, the terms and the body. */
  function PkgSize(x: Obj): nat
    decreases x, 0
  {
    x.width + |TermsBytes(x.terms)| + |x.body|
  }

  /** Opcode, PkgLength, terms, body. */
  function ObjBytes(x: Obj): (r: Mem)
    ensures 0 < |r|
    decreases x, 1
  {
    OpBytes(x.enc) + ((if x.enc.hasPkg then EncodePkg(PkgSize(x), x.width) else []) + (TermsBytes(x.terms) + x.body))
  }

  predicate ObjOk(t: Table, x: Obj)
    decreases x
  {
    && Listed(t, x.enc) && TermsOk(t, x.enc, 1, x.terms)
    && (if x.enc.hasPkg then Fits(PkgSize(x), x.width) else x.body == [])
  }

  /** Where the terms start, counted from the opcode. */
  function Lead(x: Obj): nat {
    |OpBytes(x.enc)| + if x.enc.hasPkg then x.width else 0
  }

  // ----- what the parser makes of them -----

  function TypeOf(f: Format, x: Term): DataType {
    match f
    case Name => NameString
    case Str => DataType.String
    case Object => if x.NameTerm? then NameString else Child
    case _ => UInt
  }

  lemma {:induction false} StrSizeIs(m: Mem, o: nat, text: Mem)
    requires HasAt(m, o, text + [0]) && 0 !in text
    ensures StrSize(m, o) == |text| + 1
    decreases |text|
  {
    HasByte(m, o, text + [0], 0);
    if text != [] {
      assert text + [0] == [text[0]] + (text[1..] + [0]);
      HasParts(m, o, [text[0]], text[1..] + [0]);
      StrSizeIs(m, o + 1, text[1..]);
    }
  }

  lemma NameSizeIs(m: Mem, o: nat, c: Canon)
    requires IsCanon(c) && HasAt(m, o, AslPath.NameBytes(c))
    ensures AmlName.NameSize(m, o) == Some(|AslPath.NameBytes(c)|)
  {
    hide AmlName.NameSize, AslPath.NameBytes, IsCanon;
    var b := AslPath.NameBytes(c);
    assert m == m[..o] + b + m[o + |b|..];
    AslPath.NameInMemory(m[..o], c, m[o + |b|..], []);
  }

  lemma OpcodeIs(t: Table, m: Mem, o: nat, e: Encoding)
    requires HasAt(m, o, OpBytes(e)) && Listed(t, e)
    ensures Search(t, m, o) == Some(e) && OpLength(m, o) == |OpBytes(e)|
  {
    HasByte(m, o, OpBytes(e), 0);
    if e.op == EXT_OP {
      HasByte(m, o, OpBytes(e), 1);
    }
  }

  /** The four parts of an object in memory. */
  lemma ObjParts(m: Mem, o: nat, x: Obj)
    requires HasAt(m, o, ObjBytes(x)) && (x.enc.hasPkg ==> Fits(PkgSize(x), x.width))
    ensures HasAt(m, o, OpBytes(x.enc))
    ensures x.enc.hasPkg ==> HasAt(m, o + |OpBytes(x.enc)|, EncodePkg(PkgSize(x), x.width))
    ensures HasAt(m, o + Lead(x), TermsBytes(x.terms))
    ensures |ObjBytes(x)| == Lead(x) + |TermsBytes(x.terms)| + |x.body|
  {
    hide TermsBytes, HasAt, EncodePkg;
    var op, terms := OpBytes(x.enc), TermsBytes(x.terms);
    var pkg := if x.enc.hasPkg then EncodePkg(PkgSize(x), x.width) else [];
    EncodedWidth(PkgSize(x), x.width);
    HasParts(m, o, op, pkg + (terms + x.body));
    HasParts(m, o + |op|, pkg, terms + x.body);
    HasParts(m, o + |op| + |pkg|, terms, x.body);
  }

  lemma EncodedWidth(n: nat, width: nat)
    ensures Fits(n, width) ==> |EncodePkg(n, width)| == width
  {
  }

  lemma {:induction false} TermIs(t: Table, f: Format, m: Mem, o: nat, max: nat, x: Term)
    requires TermOk(t, f, x) && HasAt(m, o, TermBytes(x)) && |TermBytes(x)| <= max
    ensures 0 < |TermBytes(x)| && ParseTerm(t, f, m, o, max) == Ok(TypeOf(f, x), 0, |TermBytes(x)|)
    decreases x, 2
  {
    hide AmlName.NameSize, IsCanon;
    match f
    case Name => NameSizeIs(m, o, x.name);
    case Str => StrSizeIs(m, o, x.text);
    case Object =>
      if x.NameTerm? {
        HasByte(m, o, TermBytes(x), 0);
        NameSizeIs(m, o, x.name);
      } else {
        ObjIs(t, m, o, max, x.obj);
      }
    case _ =>
  }

  /** The size request over all terms from number `k` on. */
  lemma {:induction false} TermsSize(t: Table, e: Encoding, m: Mem, o: nat, max: nat, cur: nat, k: nat, xs: Terms)
    requires 1 <= k && TermsOk(t, e, k, xs) && HasAt(m, o + cur, TermsBytes(xs)) && cur + |TermsBytes(xs)| <= max
    ensures ParseTerms(t, e, m, o, max, cur, k, GET_SIZE) == Ok(NoType, 0, cur + |TermsBytes(xs)|)
    decreases xs, 1
  {
    hide ParseTerm, TermBytes, TermOk, HasAt;
    if xs.Cons? {
      HasParts(m, o + cur, TermBytes(xs.head), TermsBytes(xs.tail));
      TermIs(t, e.formats[k - 1], m, o + cur, max - cur, xs.head);
      TermsSize(t, e, m, o, max, cur + |TermBytes(xs.head)|, k + 1, xs.tail);
    }
  }

  /** Opening the object gives the handle of exactly its bytes, under every bound that holds them. */
  lemma {:induction false} ObjIs(t: Table, m: Mem, o: nat, max: nat, x: Obj)
    requires ObjOk(t, x) && HasAt(m, o, ObjBytes(x)) && |ObjBytes(x)| <= max
    ensures Search(t, m, o) == Some(x.enc) && !x.enc.isNameChar && ObjectSize(t, x.enc, m, o, max) == |ObjBytes(x)|
    decreases x, 3
  {
    hide ParseTerms, HasAt, ObjBytes, TermsBytes, PkgLength, EncodePkg;
    ObjParts(m, o, x);
    OpcodeIs(t, m, o, x.enc);
    var op := |OpBytes(x.enc)|;
    if x.enc.hasPkg {
      PkgRoundTrip(m, o + op, PkgSize(x), x.width);
      TermsSize(t, x.enc, m, o, op + PkgSize(x), Lead(x), 1, x.terms);
    } else {
      TermsSize(t, x.enc, m, o, max, Lead(x), 1, x.terms);
    }
  }

  /** What opening the object returns. */
  lemma OpensAs(t: Table, m: Mem, o: nat, max: nat, x: Obj)
    requires ObjOk(t, x) && HasAt(m, o, ObjBytes(x)) && |ObjBytes(x)| <= max
    ensures OpenEx(t, m, o, max) == Some(Node(o, |ObjBytes(x)|, x.enc))
  {
    hide ObjectSize, ObjBytes;
    ObjIs(t, m, o, max, x);
  }

  // ----- options -----

  function Count(xs: Terms): nat {
    if xs.Nil? then 0 else 1 + Count(xs.tail)
  }

  function Nth(xs: Terms, i: nat): Term
    requires i < Count(xs)
  {
    if i == 0 then xs.head else Nth(xs.tail, i - 1)
  }

  /** The number of bytes before term `i`. */
  function Before(xs: Terms, i: nat): nat
    requires i <= Count(xs)
  {
    if i == 0 then 0 else |TermBytes(xs.head)| + Before(xs.tail, i - 1)
  }

  lemma {:induction false} TermsCount(t: Table, e: Encoding, k: nat, xs: Terms)
    requires 1 <= k && TermsOk(t, e, k, xs)
    ensures k + Count(xs) == |e.formats| + 1
    decreases xs
  {
    if xs.Cons? {
      TermsCount(t, e, k + 1, xs.tail);
    }
  }

  lemma {:induction false} TermsOption(t: Table, e: Encoding, m: Mem, o: nat, max: nat, cur: nat, k: nat, xs: Terms, i: nat)
    requires 1 <= k <= i && i - k < Count(xs)
    requires TermsOk(t, e, k, xs) && HasAt(m, o + cur, TermsBytes(xs)) && cur + |TermsBytes(xs)| <= max
    ensures i <= |e.formats|
    ensures var x := Nth(xs, i - k);
            ParseTerms(t, e, m, o, max, cur, k, i)
              == Ok(TypeOf(e.formats[i - 1], x), cur + Before(xs, i - k), |TermBytes(x)|)
    ensures HasAt(m, o + cur + Before(xs, i - k), TermBytes(Nth(xs, i - k)))
    decreases xs
  {
    hide ParseTerm, TermBytes, TermOk, HasAt;
    TermsCount(t, e, k, xs);
    HasParts(m, o + cur, TermBytes(xs.head), TermsBytes(xs.tail));
    TermIs(t, e.formats[k - 1], m, o + cur, max - cur, xs.head);
    if k < i {
      TermsOption(t, e, m, o, max, cur + |TermBytes(xs.head)|, k + 1, xs.tail, i);
    }
  }

  /** Option lookup gives the kind, place and length of every term, and the bytes there are the term's. */
  lemma OptionIs(t: Table, m: Mem, o: nat, max: nat, x: Obj, i: nat)
    requires ObjOk(t, x) && HasAt(m, o, ObjBytes(x)) && |ObjBytes(x)| <= max
    requires 1 <= i <= Count(x.terms)
    ensures i <= |x.enc.formats|
    ensures var y := Nth(x.terms, i - 1);
            && ParseOption(t, x.enc, m, o, max, i)
                 == Ok(TypeOf(x.enc.formats[i - 1], y), Lead(x) + Before(x.terms, i - 1), |TermBytes(y)|)
            && HasAt(m, o + Lead(x) + Before(x.terms, i - 1), TermBytes(y))
  {
    hide ParseTerms, HasAt, ObjBytes, TermsBytes, PkgLength, EncodePkg;
    ObjParts(m, o, x);
    OpcodeIs(t, m, o, x.enc);
    var op := |OpBytes(x.enc)|;
    if x.enc.hasPkg {
      PkgRoundTrip(m, o + op, PkgSize(x), x.width);
      TermsOption(t, x.enc, m, o, op + PkgSize(x), Lead(x), 1, x.terms, i);
    } else {
      TermsOption(t, x.enc, m, o, max, Lead(x), 1, x.terms, i);
    }
  }

  lemma {:induction false} AllBefore(xs: Terms)
    ensures Before(xs, Count(xs)) == |TermsBytes(xs)|
    ensures 0 < Count(xs) ==> Before(xs, Count(xs) - 1) + |TermBytes(Nth(xs, Count(xs) - 1))| == |TermsBytes(xs)|
    decreases xs
  {
    hide TermBytes;
    if xs.Cons? {
      AllBefore(xs.tail);
    }
  }

  /** The object list is the body. */
  lemma ListStartsAtBody(t: Table, m: Mem, o: nat, x: Obj)
    requires ObjOk(t, x) && HasAt(m, o, ObjBytes(x)) && x.enc.hasPkg
    ensures OffsetAfterLastOption(t, m, Node(o, |ObjBytes(x)|, x.enc)) == Some(o + Lead(x) + |TermsBytes(x.terms)|)
  {
    hide ParseTerms, HasAt, ObjBytes, TermsBytes, PkgLength, EncodePkg, TermBytes;
    TermsCount(t, x.enc, 1, x.terms);
    AllBefore(x.terms);
    ObjParts(m, o, x);
    OpcodeIs(t, m, o, x.enc);
    if x.enc.formats == [] {
      PkgRoundTrip(m, o + |OpBytes(x.enc)|, PkgSize(x), x.width);
      NoTerms(x.terms);
    } else {
      OptionIs(t, m, o, |ObjBytes(x)|, x, Count(x.terms));
      TypeIsNoOpcode(x.enc.formats[Count(x.terms) - 1], Nth(x.terms, Count(x.terms) - 1));
    }
  }

  lemma NoTerms(xs: Terms)
    ensures Count(xs) == 0 ==> TermsBytes(xs) == []
  {
  }

  lemma TypeIsNoOpcode(f: Format, x: Term)
    ensures TypeOf(f, x) != Opcode
  {
  }
}

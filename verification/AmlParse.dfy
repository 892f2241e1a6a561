/**
 The table-driven AML object parser: opcode lookup, PkgLength (section 20.2.4 of ACPI 6.5),
 option lookup and object size. Every definition takes the encoding table as a parameter.
 */
module AmlParse {
  import opened Bytes
  import AmlName

  const EXT_OP: byte := 0x5B

  /** The index that asks for the object's size rather than for one of its options. */
  const GET_SIZE: nat := 0xFFFF_FFFF

  datatype Format = U8 | U16 | U32 | U64 | Name | Str | Object

  /** One row of the encoding table; `formats` holds the used entries, one per option. */
  datatype Row = Encoding(op: byte, sub: byte, formats: seq<Format>,
                          hasPkg: bool, isNameChar: bool, hasChild: bool, inNamespace: bool)

  type Encoding = e: Row | |e.formats| <= 6 witness Encoding(0, 0, [], false, false, false, false)

  type Table = seq<Encoding>

  datatype DataType = NoType | Opcode | UInt | NameString | String | Child

  /** What a lookup yields; `data` is relative to the start of the parsed object. */
  datatype Parse = Err | Ok(dtype: DataType, data: nat, size: nat)

  datatype Pkg = Pkg(bytes: nat, length: nat)

  function Lookup(t: Table, op: byte, sub: byte): Option<Encoding> {
    if t == [] then None
    else if t[0].op == op && t[0].sub == sub then Some(t[0])
    else Lookup(t[1..], op, sub)
  }

  function Search(t: Table, m: Mem, o: nat): Option<Encoding> {
    Lookup(t, Read(m, o), if Read(m, o) == EXT_OP then At(m, o, 1) else 0)
  }

  method SearchByOpByte(t: Table, m: Mem, o: nat) returns (e: Option<Encoding>)
    ensures e == Search(t, m, o)
    ensures e.Some? ==> e.value in t && e.value.op == Read(m, o)
    ensures e.None? ==> forall x :: x in t && x.op == Read(m, o) ==>
                          x.sub != if Read(m, o) == EXT_OP then At(m, o, 1) else 0
  {
    var op := Read(m, o);
    var sub := if op == EXT_OP then At(m, o, 1) else 0;
    var index := 0;
    while index < |t|
      invariant index <= |t|
      invariant Lookup(t, op, sub) == Lookup(t[index..], op, sub)
      invariant forall i :: 0 <= i < index ==> !(t[i].op == op && t[i].sub == sub)
    {
      if t[index].op == op && t[index].sub == sub {
        return Some(t[index]);
      }
      assert t[index..][1..] == t[index + 1..];
      index := index + 1;
    }
    return None;
  }

  /** The PkgLength field at `o`: its width and the length it encodes. */
  function PkgLength(m: Mem, o: nat): Pkg {
    var lead := Read(m, o);
    var follow := lead / 64;
    if follow == 0 then Pkg(1, lead)
    else if follow == 1 then Pkg(2, At(m, o, 1) * 16 + lead % 16)
    else if follow == 2 then Pkg(3, (At(m, o, 1) + At(m, o, 2) * 0x100) * 16 + lead % 16)
    else Pkg(4, (At(m, o, 1) + At(m, o, 2) * 0x100 + At(m, o, 3) * 0x1_0000) * 16 + lead % 16)
  }

  /** The size of the NUL-terminated string at `o`, terminator included. */
  function StrSize(m: Mem, o: nat): nat
    decreases |m| - o
  {
    if o < |m| && m[o] != 0 then 1 + StrSize(m, o + 1) else 1
  }

  function OpLength(m: Mem, o: nat): nat {
    if Read(m, o) == EXT_OP then 2 else 1
  }

  /** A term of known size, accepted when it fits the bound. */
  function Bounded(d: DataType, size: nat, max: nat): Parse {
    if size > max then Err else Ok(d, 0, size)
  }

  function BoundedName(m: Mem, o: nat, max: nat): Parse {
    match AmlName.NameSize(m, o)
    case None => Err
    case Some(s) => Bounded(NameString, s, max)
  }

  function ParseTerm(t: Table, f: Format, m: Mem, o: nat, max: nat): (r: Parse)
    ensures r.Ok? ==> r.data == 0 && 1 <= r.size <= max
    decreases max, 2
  {
    match f
    case U8 => Bounded(UInt, 1, max)
    case U16 => Bounded(UInt, 2, max)
    case U32 => Bounded(UInt, 4, max)
    case U64 => Bounded(UInt, 8, max)
    case Str => Bounded(String, StrSize(m, o), max)
    case Name => BoundedName(m, o, max)
    case Object =>
      match Search(t, m, o)
      case None => Err
      case Some(e) =>
        if e.isNameChar then BoundedName(m, o, max)
        else
          var s := ObjectSize(t, e, m, o, max);
          if s == 0 then Err else Bounded(Child, s, max)
  }

  /** The terms from number `k` on, the first of them `cur` bytes into the object. */
  function ParseTerms(t: Table, e: Encoding, m: Mem, o: nat, max: nat, cur: nat, k: nat, index: nat): (r: Parse)
    requires 1 <= k
    ensures r.Ok? ==> cur <= r.data + r.size <= max
    ensures r.Ok? && index != GET_SIZE ==> cur <= r.data && 1 <= r.size
    ensures r.Ok? && index == GET_SIZE ==> r.data == 0
    decreases if cur <= max then max - cur else 0, 3, |e.formats| + 1 - k
  {
    if k <= index && k <= |e.formats| && cur < max then
      match ParseTerm(t, e.formats[k - 1], m, o + cur, max - cur)
      case Err => Err
      case Ok(d, _, s) =>
        if index == k then Ok(d, cur, s)
        else ParseTerms(t, e, m, o, max, cur + s, k + 1, index)
    else if cur > max || index != GET_SIZE then Err
    else Ok(NoType, 0, cur)
  }

  /** Option `index` of the object at `o`, or the object's size for GET_SIZE. */
  function ParseOption(t: Table, e: Encoding, m: Mem, o: nat, max: nat, index: nat): (r: Parse)
    ensures r.Ok? && index != 0 ==> r.data + r.size <= max && 1 <= r.size
    ensures r.Ok? && index != 0 && index != GET_SIZE ==> 1 <= r.data
    decreases max, 0
  {
    if e.isNameChar then
      if index != GET_SIZE then Err else BoundedName(m, o, max)
    else
      var op := OpLength(m, o);
      if index == 0 then Ok(Opcode, 0, op)
      else if op > max then Err
      else if e.hasPkg then
        var p := PkgLength(m, o + op);
        if op + p.length > max then Err
        else
          var r := ParseTerms(t, e, m, o, op + p.length, op + p.bytes, 1, index);
          if r.Ok? && index == GET_SIZE then Ok(NoType, 0, op + p.length) else r
      else ParseTerms(t, e, m, o, max, op, 1, index)
  }

  /** The size of the object at `o`, 0 when it is malformed. */
  function ObjectSize(t: Table, e: Encoding, m: Mem, o: nat, max: nat): (s: nat)
    ensures s <= max
    decreases max, 1
  {
    var r := ParseOption(t, e, m, o, max, GET_SIZE);
    if r.Ok? then r.size else 0
  }

  // ----- the parser as the driver runs it -----

  method GetPkgLength(m: Mem, o: nat) returns (bytes: nat, length: nat)
    ensures Pkg(bytes, length) == PkgLength(m, o)
  {
    var lead := Read(m, o);
    var follow := lead / 64;
    bytes := follow + 1;
    if follow == 0 {
      length := lead;
    } else {
      length := At(m, o, 1);
      if follow >= 2 {
        length := length + At(m, o, 2) * 0x100;
      }
      if follow == 3 {
        length := length + At(m, o, 3) * 0x1_0000;
      }
      length := length * 16 + lead % 16;
    }
  }

  method ParseOptionTerm(t: Table, f: Format, m: Mem, o: nat, max: nat) returns (r: Parse)
    ensures r == ParseTerm(t, f, m, o, max)
    decreases max, 2
  {
    var d: DataType;
    var size: nat;
    match f {
      case U8 => d, size := UInt, 1;
      case U16 => d, size := UInt, 2;
      case U32 => d, size := UInt, 4;
      case U64 => d, size := UInt, 8;
      case Str => d, size := String, StrSize(m, o);
      case Name =>
        var s := AmlName.GetNameStringSize(m, o);
        if s.None? { return Err; }
        d, size := NameString, s.value;
      case Object =>
        var e := SearchByOpByte(t, m, o);
        if e.None? { return Err; }
        if e.value.isNameChar {
          var s := AmlName.GetNameStringSize(m, o);
          if s.None? { return Err; }
          d, size := NameString, s.value;
        } else {
          size := GetObjectSize(t, e.value, m, o, max);
          if size == 0 { return Err; }
          d := Child;
        }
    }
    if size > max { return Err; }
    return Ok(d, 0, size);
  }

  /** The loop over the terms. */
  method ParseOptionTerms(t: Table, e: Encoding, m: Mem, o: nat, max: nat, start: nat, index: nat) returns (r: Parse)
    requires index <= |e.formats| || index == GET_SIZE
    requires 1 <= index && 1 <= start
    ensures r == ParseTerms(t, e, m, o, max, start, 1, index)
    decreases if start <= max then max - start else 0, 3
  {
    hide ParseTerm, ObjectSize, Search, StrSize, PkgLength;
    var cur := start;
    var k := 1;
    while index >= k && k <= |e.formats| && cur < max
      invariant 1 <= k && start <= cur
      invariant k <= index
      invariant ParseTerms(t, e, m, o, max, start, 1, index) == ParseTerms(t, e, m, o, max, cur, k, index)
      decreases |e.formats| + 1 - k
    {
      var term := ParseOptionTerm(t, e.formats[k - 1], m, o + cur, max - cur);
      if term.Err? { return Err; }
      if index == k { return Ok(term.dtype, cur, term.size); }
      cur := cur + term.size;
      k := k + 1;
    }
    if cur > max { return Err; }
    if cur == max && index != GET_SIZE { return Err; }
    assert index == GET_SIZE;
    return Ok(NoType, 0, cur);
  }

  method ParseOptionCommon(t: Table, e: Encoding, m: Mem, o: nat, maxSize: nat, index: nat) returns (r: Parse)
    requires index <= |e.formats| || index == GET_SIZE
    ensures r == ParseOption(t, e, m, o, maxSize, index)
    decreases maxSize, 0
  {
    var max := maxSize;
    if e.isNameChar {
      if index != GET_SIZE { return Err; }
      var s := AmlName.GetNameStringSize(m, o);
      if s.None? || s.value > max { return Err; }
      return Ok(NameString, 0, s.value);
    }
    var op := OpLength(m, o);
    if index == 0 { return Ok(Opcode, 0, op); }
    if op > max { return Err; }
    var pkgBytes, pkgLength := 0, 0;
    if e.hasPkg {
      pkgBytes, pkgLength := GetPkgLength(m, o + op);
      if op + pkgLength > max { return Err; }
      max := op + pkgLength;
    }
    r := ParseOptionTerms(t, e, m, o, max, op + pkgBytes, index);
    if r.Ok? && index == GET_SIZE && e.hasPkg {
      r := Ok(NoType, 0, op + pkgLength);
    }
  }

  method GetObjectSize(t: Table, e: Encoding, m: Mem, o: nat, max: nat) returns (s: nat)
    ensures s == ObjectSize(t, e, m, o, max)
    decreases max, 1
  {
    var r := ParseOptionCommon(t, e, m, o, max, GET_SIZE);
    return if r.Ok? then r.size else 0;
  }
}

/**
 Editing installed tables through handles. SetOption marks its handle; closing a marked handle
 repairs the checksum of the table around it.
 */
module SdtEdit {
  import opened Bytes
  import opened Acpi
  import opened AmlParse
  import opened AmlChild
  import AmlTable

  /** Where an installed table lies. */
  datatype TableRec = TableRec(base: nat, length: nat) {
    function End(): nat { base + length }
  }

  /** The Length field of the table header at `base`. */
  function LengthField(m: Mem, base: nat): nat {
    At(m, base, 4) + At(m, base, 5) * 0x100 + At(m, base, 6) * 0x1_0000 + At(m, base, 7) * 0x100_0000
  }

  ghost predicate Installed(m: Mem, r: TableRec) {
    HEADER_SIZE <= r.length && r.End() <= |m| && LengthField(m, r.base) == r.length
  }

  predicate Disjoint(a: TableRec, b: TableRec) {
    a.End() <= b.base || b.End() <= a.base
  }

  ghost predicate TablesOk(m: Mem, tables: seq<TableRec>) {
    && (forall i :: 0 <= i < |tables| ==> Installed(m, tables[i]))
    && (forall i, j :: 0 <= i < |tables| && 0 <= j < |tables| && i != j ==> Disjoint(tables[i], tables[j]))
  }

  /** The bytes of a table sum to 0 modulo 256. */
  ghost predicate Balanced(m: Mem, r: TableRec)
    requires r.End() <= |m|
  {
    Sum(m, r.base, r.End()) % 256 == 0
  }

  /** The range lies in the body of the table. */
  predicate InBody(r: TableRec, lo: nat, hi: nat) {
    r.base + HEADER_SIZE <= lo <= hi <= r.End()
  }

  /** The address of a byte in some table's body. */
  ghost predicate BodyAddress(tables: seq<TableRec>, buf: nat) {
    exists i :: 0 <= i < |tables| && InBody(tables[i], buf, buf + 1)
  }

  datatype EditHandle = EditHandle(h: Handle, modified: bool)

  /** A handle on a range of some table's body; only an object handle can be modified. */
  ghost predicate HandleOk(tables: seq<TableRec>, e: EditHandle) {
    && (exists i :: 0 <= i < |tables| && InBody(tables[i], e.h.buf, e.h.End()))
    && (e.h.Node? ==> 0 < e.h.size)
    && (e.h.Root? ==> !e.modified)
  }

  ghost predicate HandlesOk(tables: seq<TableRec>, handles: map<nat, EditHandle>) {
    forall id :: id in handles ==> HandleOk(tables, handles[id])
  }

  /** Adding up modulo 256 may reduce at every step. */
  lemma ModStep(sum: nat, b: byte)
    ensures (sum % 256 + b) % 256 == (sum + b) % 256
  {
  }

  /** The table whose body holds the handle. */
  lemma TableOfHandle(m: Mem, tables: seq<TableRec>, e: EditHandle) returns (k: nat)
    requires TablesOk(m, tables) && HandleOk(tables, e)
    ensures k < |tables| && InBody(tables[k], e.h.buf, e.h.End()) && Installed(m, tables[k]) && e.h.End() <= |m|
  {
    k :| 0 <= k < |tables| && InBody(tables[k], e.h.buf, e.h.End());
    assert Installed(m, tables[k]);
  }

  datatype Status = Success | InvalidParameter | NotFound | BadBufferSize

  lemma InstalledFrame(m1: Mem, m2: Mem, r: TableRec)
    requires Installed(m1, r) && |m2| == |m1|
    requires forall i :: r.base + 4 <= i < r.base + 8 ==> m2[i] == m1[i]
    ensures Installed(m2, r)
  {}

  /** Writing inside the body of one table leaves every header as it is. */
  lemma BodyWriteKeepsTables(m: Mem, tables: seq<TableRec>, k: nat, o: nat, data: Mem)
    requires TablesOk(m, tables) && k < |tables| && InBody(tables[k], o, o + |data|)
    ensures o + |data| <= |m| && TablesOk(Write(m, o, data), tables)
    ensures forall i :: 0 <= i < |tables| && i != k && Balanced(m, tables[i]) ==> Balanced(Write(m, o, data), tables[i])
  {
    var m2 := Write(m, o, data);
    forall i | 0 <= i < |tables|
      ensures Installed(m2, tables[i])
      ensures i != k && Balanced(m, tables[i]) ==> Balanced(m2, tables[i])
    {
      InstalledFrame(m, m2, tables[i]);
      if i != k {
        SumFrame(m, m2, tables[i].base, tables[i].End());
      }
    }
  }

  /** Repairing the checksum of one table balances it and leaves the others as they are. */
  lemma RepairBalances(m: Mem, tables: seq<TableRec>, k: nat, m2: Mem)
    requires TablesOk(m, tables) && k < |tables|
    requires var o := tables[k].base + CHECKSUM_OFFSET;
             m2 == m[o := Complement(Sum(m[o := 0], tables[k].base, tables[k].End()))]
    ensures TablesOk(m2, tables) && Balanced(m2, tables[k])
    ensures forall i :: 0 <= i < |tables| && i != k && Balanced(m, tables[i]) ==> Balanced(m2, tables[i])
  {
    ChecksumFixes(m, tables[k].base, tables[k].End(), tables[k].base + CHECKSUM_OFFSET);
    forall i | 0 <= i < |tables|
      ensures Installed(m2, tables[i])
      ensures i != k && Balanced(m, tables[i]) ==> Balanced(m2, tables[i])
    {
      InstalledFrame(m, m2, tables[i]);
      if i != k {
        SumFrame(m, m2, tables[i].base, tables[i].End());
      }
    }
  }

  /** Some open handle, marked as modified, points into the table. */
  ghost predicate Pending(handles: map<nat, EditHandle>, r: TableRec) {
    exists id :: id in handles && handles[id].modified && r.base <= handles[id].h.buf < r.End()
  }

  /** The edit invariant: a table that does not sum to 0 has a repair pending. */
  ghost predicate Repairable(m: Mem, tables: seq<TableRec>, handles: map<nat, EditHandle>)
    requires TablesOk(m, tables)
  {
    forall i :: 0 <= i < |tables| ==> Balanced(m, tables[i]) || Pending(handles, tables[i])
  }

  /** The memories differ at most in the checksum byte of the table around `buf`. */
  ghost predicate OnlyChecksum(tables: seq<TableRec>, buf: nat, m1: Mem, m2: Mem) {
    |m2| == |m1| && forall x :: 0 <= x < |m1| && !IsChecksum(tables, buf, x) ==> m2[x] == m1[x]
  }

  ghost predicate IsChecksum(tables: seq<TableRec>, buf: nat, x: nat) {
    exists i :: 0 <= i < |tables| && tables[i].base <= buf < tables[i].End() && x == tables[i].base + 9
  }

  class Session {
    const t: Table
    const tables: seq<TableRec>
    var mem: Mem
    var handles: map<nat, EditHandle>
    var nextId: nat

    /** What every call can rely on: tables with intact headers, and handle numbers used once. */
    ghost predicate Sound()
      reads this
    {
      TablesOk(mem, tables) && forall id :: id in handles ==> id < nextId
    }

    /** And what repairing checksums needs: handles in table bodies, and the edit invariant. */
    ghost predicate Valid()
      reads this
    {
      Sound() && HandlesOk(tables, handles) && Repairable(mem, tables, handles)
    }

    constructor (t: Table, tables: seq<TableRec>, mem: Mem)
      requires TablesOk(mem, tables)
      requires forall i :: 0 <= i < |tables| ==> Balanced(mem, tables[i])
      ensures Valid() && handles == map[] && this.tables == tables && this.mem == mem
    {
      this.t, this.tables, this.mem, handles, nextId := t, tables, mem, map[], 0;
    }

    /** Finds the first table that contains the address. */
    method FindTableByBuffer(buf: nat) returns (k: Option<nat>)
      requires TablesOk(mem, tables)
      ensures k.Some? ==> k.value < |tables| && tables[k.value].base <= buf < tables[k.value].End()
      ensures k.None? ==> forall i :: 0 <= i < |tables| ==> !(tables[i].base <= buf < tables[i].End())
    {
      var index := 0;
      while index < |tables|
        invariant index <= |tables|
        invariant forall i :: 0 <= i < index ==> !(tables[i].base <= buf < tables[i].End())
      {
        var base := tables[index].base;
        assert Installed(mem, tables[index]);
        if base <= buf < base + LengthField(mem, base) {
          return Some(index);
        }
        index := index + 1;
      }
      return None;
    }

    /** Adds up the bytes and stores the checksum. */
    method PlatformChecksum(base: nat, size: nat, offset: nat)
      requires base + size <= |mem| && offset < size
      modifies this`mem
      ensures mem == old(mem)[base + offset := Complement(Sum(old(mem)[base + offset := 0], base, base + size))]
    {
      mem := mem[base + offset := 0];
      var sum: int := 0;
      for i := 0 to size
        invariant mem == old(mem)[base + offset := 0]
        invariant sum == Sum(mem, base, base + i) % 256
      {
        SumSnoc(mem, base, base + i);
        ModStep(Sum(mem, base, base + i), mem[base + i]);
        sum := (sum + mem[base + i]) % 256;
      }
      mem := mem[base + offset := (0xff - sum + 1) % 256];
    }

    method UpdateAmlChecksum(buf: nat) returns (st: Status)
      requires TablesOk(mem, tables)
      modifies this`mem
      ensures TablesOk(mem, tables)
      ensures st == Success <==> InTable(tables, buf)
      ensures st != Success ==> mem == old(mem)
      ensures forall i :: 0 <= i < |tables| && tables[i].base <= buf < tables[i].End() ==> Balanced(mem, tables[i])
      ensures forall i :: 0 <= i < |tables| && Balanced(old(mem), tables[i]) ==> Balanced(mem, tables[i])
      ensures OnlyChecksum(tables, buf, old(mem), mem)
    {
      var k := FindTableByBuffer(buf);
      if k.None? {
        return NotFound;
      }
      var r := tables[k.value];
      assert Installed(mem, r);
      PlatformChecksum(r.base, LengthField(mem, r.base), CHECKSUM_OFFSET);
      RepairBalances(old(mem), tables, k.value, mem);
      assert IsChecksum(tables, buf, r.base + CHECKSUM_OFFSET);
      forall i | 0 <= i < |tables| && tables[i].base <= buf < tables[i].End() ensures i == k.value {
        OneTable(old(mem), tables, i, k.value, buf);
      }
      return Success;
    }

    // ----- the protocol -----

    /** Registers a new handle; nothing else changes. */
    method AddHandle(e: EditHandle) returns (id: nat)
      requires Sound()
      modifies this
      ensures Sound() && mem == old(mem)
      ensures old(Valid()) && HandleOk(tables, e) ==> Valid()
      ensures id !in old(handles) && handles == old(handles)[id := e]
    {
      hide HandleOk, Balanced;
      id := nextId;
      handles := handles[id := e];
      nextId := nextId + 1;
      forall i | 0 <= i < |tables| ensures Pending(old(handles), tables[i]) ==> Pending(handles, tables[i]) {
        PendingAdd(old(handles), id, e, tables[i]);
      }
    }

    /** A root handle on the body of a whole table. */
    method OpenSdt(k: nat) returns (st: Status, id: nat)
      requires Sound()
      modifies this
      ensures Sound() && mem == old(mem)
      ensures old(Valid()) ==> Valid()
      ensures st == Success <==> k < |tables|
      ensures st == Success ==> id !in old(handles) && handles == old(handles)[id :=
                EditHandle(Root(tables[k].base + 36, tables[k].length - 36), false)]
      ensures st != Success ==> handles == old(handles)
    {
      id := 0;
      if k >= |tables| {
        return NotFound, id;
      }
      var base := tables[k].base;
      assert Installed(mem, tables[k]);
      assert InBody(tables[k], base + HEADER_SIZE, tables[k].End());
      id := AddHandle(EditHandle(Root(base + HEADER_SIZE, LengthField(mem, base) - HEADER_SIZE), false));
      return Success, id;
    }

    /** A handle on the object at `buf`, which may lie anywhere in a table. */
    method Open(buf: nat) returns (st: Status, id: nat)
      requires Sound()
      modifies this
      ensures Sound() && mem == old(mem)
      ensures old(Valid()) && BodyAddress(tables, buf) ==> Valid()
      ensures st == Success ==> id !in old(handles) && id in handles && handles[id].h.buf == buf && !handles[id].modified
                                && handles == old(handles)[id := handles[id]]
      ensures st != Success ==> handles == old(handles)
      ensures st == Success ==> exists k :: 0 <= k < |tables| && tables[k].base <= buf < tables[k].End()
      ensures forall k :: 0 <= k < |tables| && tables[k].base <= buf < tables[k].End() ==>
                var o := OpenEx(t, mem, buf, tables[k].End() - buf);
                (st == Success <==> o.Some?) && (o.Some? ==> handles[id].h == o.value)
    {
      hide HandleOk, Balanced;
      id := 0;
      var k := FindTableByBuffer(buf);
      if k.None? {
        return InvalidParameter, id;
      }
      var r := tables[k.value];
      assert Installed(mem, r);
      forall i | 0 <= i < |tables| && tables[i].base <= buf < tables[i].End() ensures i == k.value {
        OneTable(mem, tables, i, k.value, buf);
      }
      var o := OpenEx(t, mem, buf, r.base + LengthField(mem, r.base) - buf);
      if o.None? {
        return InvalidParameter, id;
      }
      OpenExOpened(t, mem, buf, r.End() - buf);
      OpenedHandleOk(mem, tables, k.value, o.value);
      id := AddHandle(EditHandle(o.value, false));
      return Success, id;
    }

    /** A copy of a handle, with its mark. */
    method Duplicate(src: nat) returns (id: nat)
      requires Sound() && src in handles
      modifies this
      ensures Sound() && mem == old(mem)
      ensures old(Valid()) ==> Valid()
      ensures id !in old(handles) && handles == old(handles)[id := old(handles)[src]]
    {
      id := AddHandle(handles[src]);
    }

    /** Copies `data` into memory and marks the handle. */
    method WriteMarked(id: nat, o: nat, data: Mem)
      requires id in handles && handles[id].h.Node? && o + |data| <= |mem|
      modifies this`mem, this`handles
      ensures mem == Write(old(mem), o, data)
      ensures handles == old(handles)[id := old(handles)[id].(modified := true)]
      ensures old(Valid()) && SameBody(tables, old(handles)[id].h, o, o + |data|) ==> Valid()
    {
      hide HandleOk, Balanced, TablesOk, Repairable;
      if Valid() && SameBody(tables, handles[id].h, o, o + |data|) {
        ghost var k := BodyOf(tables, handles[id].h, o, o + |data|);
        BodyWriteKeepsTables(mem, tables, k, o, data);
        MarkKeepsRepairable(mem, tables, handles, id, k, o, data);
      }
      mem := Write(mem, o, data);
      handles := handles[id := handles[id].(modified := true)];
    }

    /** Where option `index` of a handle lies; Err for a root handle or an index too large. */
    method LocateOption(h: Handle, index: nat) returns (p: Parse)
      ensures p == OptionOf(t, mem, h, index)
    {
      if h.Root? || index > |h.enc.formats| {
        return Err;
      }
      p := ParseOptionCommon(t, h.enc, mem, h.buf, h.size, index);
    }

    /**
     Overwrites an option. Writing stays inside the handle's bytes, except that a two-byte
     opcode may be written over a one-byte object.
     */
    method SetOption(id: nat, index: nat, data: Mem) returns (st: Status, at: nat)
      requires id in handles && handles[id].h.End() <= |mem|
      requires index == 0 ==> handles[id].h.buf + |data| <= |mem|
      modifies this`mem, this`handles
      ensures old(Valid()) && (st == Success ==> SameBody(tables, old(handles)[id].h, at, at + |data|)) ==> Valid()
      ensures st != Success ==> mem == old(mem) && handles == old(handles)
      ensures st == Success <==> var p := OptionOf(t, old(mem), old(handles)[id].h, index); p.Ok? && |data| <= p.size
      ensures st == Success ==>
                && at == old(handles)[id].h.buf + OptionOf(t, old(mem), old(handles)[id].h, index).data
                && (index != 0 || |data| <= old(handles)[id].h.size ==> at + |data| <= old(handles)[id].h.End())
                && at + |data| <= |old(mem)|
                && mem == Write(old(mem), at, data)
                && handles == old(handles)[id := old(handles)[id].(modified := true)]
    {
      at := 0;
      var h := handles[id].h;
      var p := LocateOption(h, index);
      if p.Err? {
        return InvalidParameter, at;
      }
      if |data| > p.size {
        return BadBufferSize, at;
      }
      OptionFits(t, mem, h, index, |data|);
      at := h.buf + p.data;
      WriteMarked(id, at, data);
      return Success, at;
    }

    /** Releases a handle, after repairing the checksum of the table around it if it is marked. */
    method Close(id: nat) returns (st: Status)
      requires Sound() && id in handles
      modifies this
      ensures Sound()
      ensures old(Valid()) ==> Valid() && st == Success
      ensures st == Success <==> (old(handles)[id].modified ==> InTable(tables, old(handles)[id].h.buf))
      ensures handles == if st == Success then old(handles) - {id} else old(handles)
      ensures !old(handles)[id].modified || st != Success ==> mem == old(mem)
      ensures old(handles)[id].modified ==>
                forall i :: 0 <= i < |tables| && tables[i].base <= old(handles)[id].h.buf < tables[i].End() ==>
                  Balanced(mem, tables[i])
      ensures OnlyChecksum(tables, old(handles)[id].h.buf, old(mem), mem)
    {
      hide Balanced, IsChecksum, HandleOk, Pending, OnlyChecksum, Installed;
      var e := handles[id];
      OnlySame(tables, e.h.buf, mem);
      if Valid() {
        HandlesWithout(mem, tables, handles, id);
      }
      if e.modified {
        var r := UpdateAmlChecksum(e.h.buf);
        if r != Success {
          return InvalidParameter;
        }
      }
      if old(Valid()) {
        CloseKeepsRepairable(old(mem), mem, tables, handles, id);
      }
      handles := handles - {id};
      return Success;
    }
  }

  ghost predicate InTable(tables: seq<TableRec>, buf: nat) {
    exists i :: 0 <= i < |tables| && tables[i].base <= buf < tables[i].End()
  }

  /** The handle and the range lie in the body of one table. */
  predicate SameBody(tables: seq<TableRec>, h: Handle, lo: nat, hi: nat) {
    lo <= hi && exists k :: 0 <= k < |tables| && InBody(tables[k], h.buf, h.End()) && InBody(tables[k], lo, hi)
  }

  lemma BodyOf(tables: seq<TableRec>, h: Handle, lo: nat, hi: nat) returns (k: nat)
    requires SameBody(tables, h, lo, hi)
    ensures k < |tables| && InBody(tables[k], h.buf, h.End()) && InBody(tables[k], lo, hi)
  {
    k :| 0 <= k < |tables| && InBody(tables[k], h.buf, h.End()) && InBody(tables[k], lo, hi);
  }

  /** An object opened in a table's body up to the end of the table makes a good handle. */
  lemma OpenedHandleOk(m: Mem, tables: seq<TableRec>, k: nat, h: Handle)
    requires TablesOk(m, tables) && k < |tables| && tables[k].base <= h.buf < tables[k].End()
    requires h.Node? && 0 < h.size && h.End() <= tables[k].End()
    ensures BodyAddress(tables, h.buf) ==> HandleOk(tables, EditHandle(h, false))
  {
    if BodyAddress(tables, h.buf) {
      BodyOfTable(m, tables, k, h.buf);
      assert InBody(tables[k], h.buf, h.End());
    }
  }

  lemma OnlySame(tables: seq<TableRec>, buf: nat, m: Mem)
    ensures OnlyChecksum(tables, buf, m, m)
  {}

  /** A marked handle has a table to repair, and closing a handle leaves the others good. */
  lemma HandlesWithout(m: Mem, tables: seq<TableRec>, handles: map<nat, EditHandle>, id: nat)
    requires TablesOk(m, tables) && HandlesOk(tables, handles) && id in handles
    ensures HandlesOk(tables, handles - {id})
    ensures handles[id].modified ==> InTable(tables, handles[id].h.buf)
  {
    var k := TableOfHandle(m, tables, handles[id]);
  }

  function OptionOf(t: Table, m: Mem, h: Handle, index: nat): Parse {
    if h.Root? || index > |h.enc.formats| then Err else ParseOption(t, h.enc, m, h.buf, h.size, index)
  }

  /** Data that fits an option fits the object, except that it may be too long for the opcode. */
  lemma OptionFits(t: Table, m: Mem, h: Handle, index: nat, size: nat)
    requires var p := OptionOf(t, m, h, index); p.Ok? && size <= p.size
    ensures h.Node? && (index != 0 || size <= h.size ==> OptionOf(t, m, h, index).data + size <= h.size)
    ensures index == 0 ==> OptionOf(t, m, h, index).data == 0
  {}

  /**
   Exactly one write escapes its object: two bytes over the opcode of a one-byte object whose
   opcode byte has been changed to the extension prefix.
   */
  lemma OpcodeEscapes(t: Table, m: Mem, h: Handle, index: nat, size: nat)
    requires h.Node? && 0 < h.size && !h.enc.isNameChar
    requires var p := OptionOf(t, m, h, index); p.Ok? && size <= p.size
    ensures OptionOf(t, m, h, index).data + size > h.size <==>
              index == 0 && size == 2 && h.size == 1 && Read(m, h.buf) == EXT_OP
  {}

  /**
   And it does happen, for every one-byte object: once the extension prefix has been written over
   its opcode, option 0 has size 2, and writing that much changes the byte behind the object.
   */
  method OpcodeEscape(s: Session, id: nat, second: byte) returns (first: Status, last: Status)
    requires id in s.handles && s.handles[id].h.Node? && s.handles[id].h.size == 1 && !s.handles[id].h.enc.isNameChar
    requires s.handles[id].h.buf + 2 <= |s.mem|
    modifies s
    ensures first == Success && last == Success
    ensures s.mem == old(s.mem)[old(s.handles[id].h.buf) := EXT_OP][old(s.handles[id].h.End()) := second]
  {
    var at;
    first, at := s.SetOption(id, 0, [EXT_OP]);
    last, at := s.SetOption(id, 0, [EXT_OP, second]);
  }

  lemma ZeroOpSize(t: Table, m: Mem, o: nat, max: nat)
    requires o < |m| && m[o] == 0 && 0 < max
    ensures ObjectSize(t, Encoding(0, 0, [], false, false, false, false), m, o, max) == 1
  {
    var e: Encoding := Encoding(0, 0, [], false, false, false, false);
    assert ParseTerms(t, e, m, o, max, 1, 1, GET_SIZE) == Ok(NoType, 0, 1);
  }

  /** Such an object: a ZeroOp. */
  lemma ZeroOpOpens(m: Mem, o: nat, max: nat)
    requires o < |m| && m[o] == 0 && 0 < max
    ensures OpenEx(AmlTable.BYTE_ENCODING, m, o, max) == Some(Node(o, 1, Encoding(0, 0, [], false, false, false, false)))
  {
    hide ObjectSize;
    var t, e := AmlTable.BYTE_ENCODING, AmlTable.DATA_AND_NAMED[0];
    assert t[0] == e == Encoding(0, 0, [], false, false, false, false);
    ZeroOpSize(t, m, o, max);
    assert Search(t, m, o) == Some(e);
  }

  /** For instance, any ZeroOp in a table of a session on the driver's table can be opened and so overrun. */
  method ZeroOpEscape(s: Session, k: nat, buf: nat, second: byte)
    requires s.Sound() && s.t == AmlTable.BYTE_ENCODING && k < |s.tables|
    requires s.tables[k].base <= buf < s.tables[k].End() && buf + 2 <= |s.mem| && s.mem[buf] == 0
    modifies s
    ensures s.mem == old(s.mem)[buf := EXT_OP][buf + 1 := second]
  {
    hide AmlTable.BYTE_ENCODING, OpenEx;
    ZeroOpOpens(s.mem, buf, s.tables[k].End() - buf);
    var _, id := s.Open(buf);
    var _, _ := OpcodeEscape(s, id, second);
  }

  lemma OneTable(m: Mem, tables: seq<TableRec>, i: nat, k: nat, buf: nat)
    requires TablesOk(m, tables) && i < |tables| && k < |tables|
    requires tables[i].base <= buf < tables[i].End() && tables[k].base <= buf < tables[k].End()
    ensures i == k
  {}

  /** An address in some table's body is in the body of the table that contains it. */
  lemma BodyOfTable(m: Mem, tables: seq<TableRec>, k: nat, buf: nat)
    requires TablesOk(m, tables) && k < |tables| && tables[k].base <= buf < tables[k].End()
    requires BodyAddress(tables, buf)
    ensures InBody(tables[k], buf, buf)
  {
    var i :| 0 <= i < |tables| && InBody(tables[i], buf, buf + 1);
    OneTable(m, tables, i, k, buf);
  }

  lemma PendingAdd(handles: map<nat, EditHandle>, id: nat, e: EditHandle, r: TableRec)
    requires id !in handles
    ensures Pending(handles, r) ==> Pending(handles[id := e], r)
  {
    if Pending(handles, r) {
      var j :| j in handles && handles[j].modified && r.base <= handles[j].h.buf < r.End();
      assert j in handles[id := e] && handles[id := e][j].modified;
    }
  }

  lemma PendingMark(handles: map<nat, EditHandle>, id: nat, r: TableRec)
    requires id in handles
    ensures Pending(handles, r) ==> Pending(handles[id := handles[id].(modified := true)], r)
  {
    if Pending(handles, r) {
      var j :| j in handles && handles[j].modified && r.base <= handles[j].h.buf < r.End();
      assert handles[id := handles[id].(modified := true)][j].modified;
    }
  }

  lemma PendingClose(handles: map<nat, EditHandle>, id: nat, r: TableRec)
    requires id in handles
    requires handles[id].modified ==> !(r.base <= handles[id].h.buf < r.End())
    ensures Pending(handles, r) ==> Pending(handles - {id}, r)
  {
    if Pending(handles, r) {
      var j :| j in handles && handles[j].modified && r.base <= handles[j].h.buf < r.End();
      assert j in handles - {id} && (handles - {id})[j].modified;
    }
  }

  lemma MarkKeepsRepairable(m: Mem, tables: seq<TableRec>, handles: map<nat, EditHandle>,
                            id: nat, k: nat, o: nat, data: Mem)
    requires TablesOk(m, tables) && Repairable(m, tables, handles) && HandlesOk(tables, handles)
    requires id in handles && handles[id].h.Node? && k < |tables| && InBody(tables[k], o, o + |data|)
    requires InBody(tables[k], handles[id].h.buf, handles[id].h.End())
    requires o + |data| <= |m| && TablesOk(Write(m, o, data), tables)
    ensures Repairable(Write(m, o, data), tables, handles[id := handles[id].(modified := true)])
    ensures HandlesOk(tables, handles[id := handles[id].(modified := true)])
  {
    BodyWriteKeepsTables(m, tables, k, o, data);
    assert HandleOk(tables, handles[id]);
    var marked := handles[id := handles[id].(modified := true)];
    forall i | 0 <= i < |tables| ensures Balanced(Write(m, o, data), tables[i]) || Pending(marked, tables[i]) {
      PendingMark(handles, id, tables[i]);
      assert i == k ==> marked[id].modified && Pending(marked, tables[i]);
    }
  }

  lemma CloseKeepsRepairable(m: Mem, m2: Mem, tables: seq<TableRec>, handles: map<nat, EditHandle>, id: nat)
    requires TablesOk(m, tables) && Repairable(m, tables, handles) && TablesOk(m2, tables) && id in handles
    requires forall i :: 0 <= i < |tables| && Balanced(m, tables[i]) ==> Balanced(m2, tables[i])
    requires handles[id].modified ==>
               forall i :: 0 <= i < |tables| && tables[i].base <= handles[id].h.buf < tables[i].End() ==> Balanced(m2, tables[i])
    ensures Repairable(m2, tables, handles - {id})
  {
    forall i | 0 <= i < |tables| && !Balanced(m2, tables[i]) ensures Pending(handles - {id}, tables[i]) {
      PendingClose(handles, id, tables[i]);
    }
  }

  // ----- runs -----

  datatype Op = OpOpenSdt(k: nat) | OpOpen(buf: nat) | OpDuplicate(src: nat) | OpSet(id: nat, index: nat, data: Mem) | OpClose(close: nat)

  /** Objects are opened in table bodies. */
  ghost predicate Allowed(tables: seq<TableRec>, op: Op) {
    op.OpOpen? ==> BodyAddress(tables, op.buf)
  }

  /** Overwriting the opcode leaves the table: the one write that a run may not make. */
  predicate LeavesTable(tables: seq<TableRec>, h: Handle, index: nat, size: nat) {
    index == 0 && h.size < size && !SameBody(tables, h, h.buf, h.buf + size)
  }

  /** One call; calls on handles that are not open are not made. */
  method Step(s: Session, op: Op)
    requires s.Valid() && Allowed(s.tables, op)
    modifies s
    ensures s.Valid()
  {
    match op {
      case OpOpenSdt(k) => var _, _ := s.OpenSdt(k);
      case OpOpen(buf) => var _, _ := s.Open(buf);
      case OpDuplicate(src) => if src in s.handles { var _ := s.Duplicate(src); }
      case OpSet(id, index, data) =>
        if id in s.handles {
          if !LeavesTable(s.tables, s.handles[id].h, index, |data|) {
            SetStays(s.mem, s.tables, s.handles[id], index, |data|);
            var _, _ := s.SetOption(id, index, data);
          }
        }
      case OpClose(id) => if id in s.handles { var _ := s.Close(id); }
    }
  }

  /** A write that does not leave the table is in memory, and in the handle's table wherever the option is. */
  lemma SetStays(m: Mem, tables: seq<TableRec>, e: EditHandle, index: nat, size: nat)
    requires TablesOk(m, tables) && HandleOk(tables, e) && !LeavesTable(tables, e.h, index, size)
    ensures e.h.End() <= |m|
    ensures index == 0 ==> e.h.buf + size <= |m|
    ensures index == 0 ==> SameBody(tables, e.h, e.h.buf, e.h.buf + size)
    ensures forall lo: nat, hi: nat :: e.h.buf <= lo <= hi <= e.h.End() ==> SameBody(tables, e.h, lo, hi)
  {
    var k := TableOfHandle(m, tables, e);
    forall lo: nat, hi: nat | e.h.buf <= lo <= hi <= e.h.End()
      ensures SameBody(tables, e.h, lo, hi)
    {
      assert InBody(tables[k], lo, hi);
    }
    if index == 0 && e.h.size < size {
      var j := BodyOf(tables, e.h, e.h.buf, e.h.buf + size);
      assert Installed(m, tables[j]);
    }
  }

  /**
   Checksums over edit runs: whatever calls are made, whenever no handle is open every table
   sums to 0.
   */
  method Run(s: Session, ops: seq<Op>)
    requires s.Valid()
    requires forall i :: 0 <= i < |ops| ==> Allowed(s.tables, ops[i])
    modifies s
    ensures s.Valid()
    ensures s.handles == map[] ==> forall i :: 0 <= i < |s.tables| ==> Balanced(s.mem, s.tables[i])
  {
    for k := 0 to |ops|
      invariant s.Valid()
    {
      Step(s, ops[k]);
    }
  }
}

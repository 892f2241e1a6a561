/**
 The QEMU linker/loader script: its packed entries, and what each command of the first pass
 does to the fw_cfg files, the page allocations and the blobs under processing.
 */
module LoaderScript {
  import opened Bytes

  const PAGE_SIZE: nat := 4096
  const FOUR_GIB: nat := 0x1_0000_0000
  const ADDRESS_SPACE: nat := 0x1_0000_0000_0000_0000
  const ENTRY_SIZE: nat := 128
  const NAME_SIZE: nat := 56

  type FileName = s: Mem | |s| == NAME_SIZE witness seq(NAME_SIZE, _ => 0)

  datatype Why =
    | MalformedName | BadReference | BadLocation | BadValue | Unrepresentable
    | Duplicate | BadRange | BadLoaderSize

  datatype Status =
    | Success | ProtocolError(why: Why) | Unsupported | NotFound | OutOfResources
    | Refused      // an error code of AllocatePages or InstallAcpiTable
    | Asserted     // not a return value: execution stopped in an ASSERT
  {
    predicate Failed() { !Success? && !Asserted? }
  }

  datatype Cmd =
    | Allocate(file: FileName, alignment: nat)
    | AddPointer(pointerFile: FileName, pointeeFile: FileName, offset: nat, size: nat)
    | AddChecksum(file: FileName, result: nat, start: nat, length: nat)
    | WritePointer(pointerFile: FileName, pointeeFile: FileName, offset: nat, pointeeOffset: nat, size: nat)
    | Unknown

  type Script = seq<Cmd>

  /** A file name as AsciiStrCmp sees it: the bytes before the first NUL. */
  function Key(n: Mem): Mem {
    if n == [] || n[0] == 0 then [] else [n[0]] + Key(n[1..])
  }

  predicate Terminated(n: FileName) { n[NAME_SIZE - 1] == 0 }

  /** The key is all that is left of a name: what follows its first NUL does not matter. */
  lemma {:induction false} KeyIsPrefix(n: Mem)
    ensures |Key(n)| <= |n| && Key(n) == n[..|Key(n)|]
    ensures 0 !in Key(n)
    ensures |Key(n)| < |n| ==> n[|Key(n)|] == 0
  {
    if n != [] && n[0] != 0 {
      KeyIsPrefix(n[1..]);
    }
  }

  // ----- little-endian integers -----

  function Le(m: Mem): nat {
    if m == [] then 0 else m[0] + 256 * Le(m[1..])
  }

  function ToLe(v: nat, n: nat): (r: Mem)
    ensures |r| == n
  {
    if n == 0 then [] else [v % 256] + ToLe(v / 256, n - 1)
  }

  function Pow256(n: nat): nat {
    if n == 0 then 1 else 256 * Pow256(n - 1)
  }

  lemma {:induction false} LeToLe(v: nat, n: nat)
    requires v < Pow256(n)
    ensures Le(ToLe(v, n)) == v
  {
    if n > 0 {
      LeToLe(v / 256, n - 1);
      assert ToLe(v, n)[1..] == ToLe(v / 256, n - 1);
    }
  }

  lemma Pow256Values()
    ensures Pow256(1) == 256 && Pow256(2) == 0x1_0000 && Pow256(4) == FOUR_GIB && Pow256(8) == ADDRESS_SPACE
  {
    assert Pow256(4) == 256 * (256 * (256 * (256 * Pow256(0))));
    assert Pow256(8) == 256 * (256 * (256 * (256 * Pow256(4))));
  }

  // ----- the packed entries of "etc/table-loader" -----

  function U32(e: Mem, o: nat): nat
    requires o + 4 <= |e|
  {
    Le(e[o..o + 4])
  }

  function Name(e: Mem, o: nat): FileName
    requires o + NAME_SIZE <= |e|
  {
    e[o..o + NAME_SIZE]
  }

  function Entry(e: Mem): Cmd
    requires |e| == ENTRY_SIZE
  {
    var kind := U32(e, 0);
    if kind == 1 then Allocate(Name(e, 4), U32(e, 60))
    else if kind == 2 then AddPointer(Name(e, 4), Name(e, 60), U32(e, 116), e[120])
    else if kind == 3 then AddChecksum(Name(e, 4), U32(e, 60), U32(e, 64), U32(e, 68))
    else if kind == 4 then WritePointer(Name(e, 4), Name(e, 60), U32(e, 116), U32(e, 120), e[124])
    else Unknown
  }

  function Entries(file: Mem): (r: Script)
    requires |file| % ENTRY_SIZE == 0
    ensures |r| == |file| / ENTRY_SIZE
  {
    seq(|file| / ENTRY_SIZE, i requires 0 <= i < |file| / ENTRY_SIZE => Entry(file[ENTRY_SIZE * i..ENTRY_SIZE * i + ENTRY_SIZE]))
  }

  // ----- the same entries as the host packs them -----

  function Zeros(n: nat): (z: Mem)
    ensures |z| == n && forall i :: 0 <= i < n ==> z[i] == 0
  {
    seq(n, _ => 0)
  }

  /** Every number fits its field. */
  predicate Packable(c: Cmd) {
    match c
    case Allocate(_, alignment) => alignment < FOUR_GIB
    case AddPointer(_, _, offset, size) => offset < FOUR_GIB && size < 256
    case AddChecksum(_, result, start, length) => result < FOUR_GIB && start < FOUR_GIB && length < FOUR_GIB
    case WritePointer(_, _, offset, pointeeOffset, size) => offset < FOUR_GIB && pointeeOffset < FOUR_GIB && size < 256
    case Unknown => true
  }

  function Fields(c: Cmd): (r: Mem)
    requires Packable(c)
    ensures |r| <= ENTRY_SIZE - 4
  {
    match c
    case Allocate(file, alignment) => file + ToLe(alignment, 4)
    case AddPointer(pointer, pointee, offset, size) => pointer + pointee + ToLe(offset, 4) + [size]
    case AddChecksum(file, result, start, length) => file + ToLe(result, 4) + ToLe(start, 4) + ToLe(length, 4)
    case WritePointer(pointer, pointee, offset, pointeeOffset, size) =>
      pointer + pointee + ToLe(offset, 4) + ToLe(pointeeOffset, 4) + [size]
    case Unknown => []
  }

  function TypeOf(c: Cmd): nat {
    match c
    case Allocate(_, _) => 1
    case AddPointer(_, _, _, _) => 2
    case AddChecksum(_, _, _, _) => 3
    case WritePointer(_, _, _, _, _) => 4
    case Unknown => 0
  }

  /** A command as its 128-byte entry: the type, the fields without gaps, and padding. */
  function Packed(c: Cmd): (r: Mem)
    requires Packable(c)
    ensures |r| == ENTRY_SIZE
  {
    ToLe(TypeOf(c), 4) + Fields(c) + Zeros(ENTRY_SIZE - 4 - |Fields(c)|)
  }

  function PackedScript(s: Script): (r: Mem)
    requires forall i :: 0 <= i < |s| ==> Packable(s[i])
    ensures |r| == ENTRY_SIZE * |s|
  {
    if s == [] then [] else PackedScript(s[..|s| - 1]) + Packed(s[|s| - 1])
  }

  /** A number stored at `o` is read back. */
  lemma U32At(e: Mem, o: nat, v: nat)
    requires o + 4 <= |e| && v < FOUR_GIB && e[o..o + 4] == ToLe(v, 4)
    ensures U32(e, o) == v
  {
    Pow256Values();
    LeToLe(v, 4);
  }

  /** The fields start behind the type. */
  lemma FieldsAt(c: Cmd, lo: nat, hi: nat)
    requires Packable(c) && lo <= hi <= |Fields(c)|
    ensures Packed(c)[4 + lo..4 + hi] == Fields(c)[lo..hi]
  {
  }

  lemma TypeAt(c: Cmd)
    requires Packable(c)
    ensures U32(Packed(c), 0) == TypeOf(c)
  {
    assert Packed(c)[0..4] == ToLe(TypeOf(c), 4);
    U32At(Packed(c), 0, TypeOf(c));
  }

  lemma AllocateEntry(c: Cmd)
    requires Packable(c) && c.Allocate?
    ensures Entry(Packed(c)) == c
  {
    hide Packed, U32;
    var e, f := Packed(c), Fields(c);
    TypeAt(c);
    FieldsAt(c, 0, 56);
    FieldsAt(c, 56, 60);
    assert f[0..56] == c.file && f[56..60] == ToLe(c.alignment, 4);
    U32At(e, 60, c.alignment);
    assert Name(e, 4) == c.file;
  }

  lemma AddPointerEntry(c: Cmd)
    requires Packable(c) && c.AddPointer?
    ensures Entry(Packed(c)) == c
  {
    hide Packed, U32;
    var e, f := Packed(c), Fields(c);
    TypeAt(c);
    FieldsAt(c, 0, 56);
    FieldsAt(c, 56, 112);
    FieldsAt(c, 112, 116);
    FieldsAt(c, 116, 117);
    assert f[0..56] == c.pointerFile && f[56..112] == c.pointeeFile && f[112..116] == ToLe(c.offset, 4);
    assert f[116..117] == [c.size];
    U32At(e, 116, c.offset);
    assert Name(e, 4) == c.pointerFile && Name(e, 60) == c.pointeeFile;
    assert e[120] == e[120..121][0] == c.size;
  }

  lemma AddChecksumEntry(c: Cmd)
    requires Packable(c) && c.AddChecksum?
    ensures Entry(Packed(c)) == c
  {
    hide Packed, U32;
    var e, f := Packed(c), Fields(c);
    TypeAt(c);
    FieldsAt(c, 0, 56);
    FieldsAt(c, 56, 60);
    FieldsAt(c, 60, 64);
    FieldsAt(c, 64, 68);
    assert f[0..56] == c.file && f[56..60] == ToLe(c.result, 4);
    assert f[60..64] == ToLe(c.start, 4) && f[64..68] == ToLe(c.length, 4);
    U32At(e, 60, c.result);
    U32At(e, 64, c.start);
    U32At(e, 68, c.length);
    assert Name(e, 4) == c.file;
  }

  lemma WritePointerEntry(c: Cmd)
    requires Packable(c) && c.WritePointer?
    ensures Entry(Packed(c)) == c
  {
    hide Packed, U32;
    var e, f := Packed(c), Fields(c);
    TypeAt(c);
    FieldsAt(c, 0, 56);
    FieldsAt(c, 56, 112);
    FieldsAt(c, 112, 116);
    FieldsAt(c, 116, 120);
    FieldsAt(c, 120, 121);
    assert f[0..56] == c.pointerFile && f[56..112] == c.pointeeFile && f[112..116] == ToLe(c.offset, 4);
    assert f[116..120] == ToLe(c.pointeeOffset, 4) && f[120..121] == [c.size];
    U32At(e, 116, c.offset);
    U32At(e, 120, c.pointeeOffset);
    assert Name(e, 4) == c.pointerFile && Name(e, 60) == c.pointeeFile;
    assert e[124] == e[124..125][0] == c.size;
  }

  /** Decoding a packed command gives it back. */
  lemma EntryOfPacked(c: Cmd)
    requires Packable(c)
    ensures Entry(Packed(c)) == c
  {
    match c
    case Allocate(_, _) => AllocateEntry(c);
    case AddPointer(_, _, _, _) => AddPointerEntry(c);
    case AddChecksum(_, _, _, _) => AddChecksumEntry(c);
    case WritePointer(_, _, _, _, _) => WritePointerEntry(c);
    case Unknown => TypeAt(c);
  }

  /** Decoding a packed script gives it back. */
  lemma {:induction false} EntriesOfPacked(s: Script)
    requires forall i :: 0 <= i < |s| ==> Packable(s[i])
    ensures Entries(PackedScript(s)) == s
  {
    hide Entry, Packed;
    if s != [] {
      var n := |s| - 1;
      var init, m := s[..n], PackedScript(s);
      EntriesOfPacked(init);
      EntryOfPacked(s[n]);
      forall i | 0 <= i < n
        ensures Entries(m)[i] == s[i]
      {
        assert m[ENTRY_SIZE * i..ENTRY_SIZE * i + ENTRY_SIZE] == PackedScript(init)[ENTRY_SIZE * i..ENTRY_SIZE * i + ENTRY_SIZE];
        assert Entries(PackedScript(init))[i] == s[i];
      }
      assert m[ENTRY_SIZE * n..ENTRY_SIZE * n + ENTRY_SIZE] == Packed(s[n]);
    }
  }

  // ----- blobs, pages, files -----

  datatype Blob = Blob(base: nat, data: Mem, tableOnly: bool)

  type Tracker = map<Mem, Blob>

  type Files = map<Mem, Mem>

  /** An allocation: base address and number of pages. */
  type Span = (nat, nat)

  datatype World = World(files: Files, live: set<Span>, tracker: Tracker)

  /** What the services answer while one command is handled. */
  datatype Reply = Reply(
    narrow: bool,          // room to record a restricted blob
    base: Option<nat>,     // AllocatePages
    pool: bool,            // the BLOB structure
    node: bool,            // the tracker node
    seen: bool,            // the seen-pointer node
    key: Option<nat>)      // InstallAcpiTable

  function PagesFor(size: nat): (n: nat)
    ensures size <= n * PAGE_SIZE < size + PAGE_SIZE
  {
    (size + PAGE_SIZE - 1) / PAGE_SIZE
  }

  function SpanOf(b: Blob): Span { (b.base, PagesFor(|b.data|)) }

  predicate Apart(p: Span, q: Span) {
    p.0 + p.1 * PAGE_SIZE <= q.0 || q.0 + q.1 * PAGE_SIZE <= p.0
  }

  /** The contract of AllocatePages(AllocateMaxAddress): aligned, disjoint, its last byte at most `max`. */
  predicate Fits(live: set<Span>, p: Span, max: nat) {
    && p.0 % PAGE_SIZE == 0
    && p.0 + p.1 * PAGE_SIZE <= max + 1
    && p.0 + p.1 * PAGE_SIZE < ADDRESS_SPACE
    && p !in live
    && forall q :: q in live ==> Apart(p, q)
  }

  function MaxAddress(restricted: set<Mem>, k: Mem): nat {
    if k in restricted then FOUR_GIB - 1 else ADDRESS_SPACE - 1
  }

  predicate Width(n: nat) { n == 1 || n == 2 || n == 4 || n == 8 }

  /** A field of `size` bytes at `offset` lies inside a buffer of `length` bytes. */
  predicate Inside(offset: nat, size: nat, length: nat) {
    Width(size) && offset + size <= length
  }

  function Field(m: Mem, offset: nat, size: nat): nat
    requires offset + size <= |m|
  {
    Le(m[offset..offset + size])
  }

  predicate Narrow(c: Cmd) { c.AddPointer? && c.size < 8 }

  /** Names every blob that some narrow ADD_POINTER among the first `n` commands points into. */
  ghost function NarrowPointees(s: Script, n: nat): set<Mem>
    requires n <= |s|
  {
    set i | 0 <= i < n && Narrow(s[i]) :: Key(s[i].pointeeFile)
  }

  // ----- ALLOCATE -----

  function AllocateStatus(w: World, c: Cmd, restricted: set<Mem>, r: Reply): Status
    requires c.Allocate?
  {
    var k := Key(c.file);
    if !Terminated(c.file) then ProtocolError(MalformedName)
    else if c.alignment > PAGE_SIZE then Unsupported
    else if k !in w.files then NotFound
    else if r.base.None? || !Fits(w.live, (r.base.value, PagesFor(|w.files[k]|)), MaxAddress(restricted, k)) then Refused
    else if !r.pool then OutOfResources
    else if k in w.tracker then ProtocolError(Duplicate)
    else if !r.node then OutOfResources
    else Success
  }

  function Allocated(w: World, c: Cmd, restricted: set<Mem>, r: Reply): World
    requires c.Allocate? && AllocateStatus(w, c, restricted, r) == Success
  {
    var k := Key(c.file);
    var b := Blob(r.base.value, w.files[k], true);
    w.(live := w.live + {SpanOf(b)}, tracker := w.tracker[k := b])
  }

  // ----- ADD_POINTER -----

  /** Both blobs exist and the field lies inside the first. */
  predicate Placed(t: Tracker, c: Cmd) {
    c.AddPointer? ==>
      && Key(c.pointerFile) in t && Key(c.pointeeFile) in t
      && Inside(c.offset, c.size, |t[Key(c.pointerFile)].data|)
  }

  /** What the pointer field holds. */
  function Target(t: Tracker, c: Cmd): nat
    requires c.AddPointer? && Placed(t, c)
  {
    Field(t[Key(c.pointerFile)].data, c.offset, c.size)
  }

  function PointerStatus(t: Tracker, c: Cmd): Status
    requires c.AddPointer?
  {
    var p, q := Key(c.pointerFile), Key(c.pointeeFile);
    if !Terminated(c.pointerFile) || !Terminated(c.pointeeFile) then ProtocolError(MalformedName)
    else if p !in t || q !in t then ProtocolError(BadReference)
    else if !Inside(c.offset, c.size, |t[p].data|) then ProtocolError(BadLocation)
    else if Target(t, c) >= |t[q].data| then ProtocolError(BadValue)
    else if c.size < 8 && Target(t, c) + t[q].base >= Pow256(c.size) then ProtocolError(Unrepresentable)
    else Success
  }

  function Relocated(t: Tracker, c: Cmd): Tracker
    requires c.AddPointer? && PointerStatus(t, c) == Success
  {
    var p := Key(c.pointerFile);
    var address := Target(t, c) + t[Key(c.pointeeFile)].base;
    t[p := t[p].(data := Write(t[p].data, c.offset, ToLe(address, c.size)))]
  }

  // ----- ADD_CHECKSUM -----

  function ChecksumStatus(t: Tracker, c: Cmd): Status
    requires c.AddChecksum?
  {
    var k := Key(c.file);
    if !Terminated(c.file) then ProtocolError(MalformedName)
    else if k !in t then ProtocolError(BadReference)
    else if c.result >= |t[k].data| || c.start + c.length > |t[k].data| then ProtocolError(BadRange)
    else Success
  }

  function Checksummed(t: Tracker, c: Cmd): Tracker
    requires c.AddChecksum? && ChecksumStatus(t, c) == Success
  {
    var k := Key(c.file);
    t[k := t[k].(data := t[k].data[c.result := Complement(Sum(t[k].data, c.start, c.start + c.length))])]
  }

  // ----- WRITE_POINTER -----

  /** The destination exists and the pointee offset is inside its blob. */
  predicate Sendable(f: Files, t: Tracker, c: Cmd) {
    c.WritePointer? ==>
      && Key(c.pointerFile) in f && Inside(c.offset, c.size, |f[Key(c.pointerFile)]|)
      && Key(c.pointeeFile) in t && c.pointeeOffset < |t[Key(c.pointeeFile)].data|
  }

  function WriteStatus(f: Files, t: Tracker, c: Cmd): Status
    requires c.WritePointer?
  {
    var p, q := Key(c.pointerFile), Key(c.pointeeFile);
    if !Terminated(c.pointerFile) || !Terminated(c.pointeeFile) then ProtocolError(MalformedName)
    else if p !in f || q !in t then ProtocolError(BadReference)
    else if !Inside(c.offset, c.size, |f[p]|) then ProtocolError(BadLocation)
    else if c.pointeeOffset >= |t[q].data| then ProtocolError(BadValue)
    else if c.size < 8 && c.pointeeOffset + t[q].base >= Pow256(c.size) then ProtocolError(Unrepresentable)
    else Success
  }

  function Sent(w: World, c: Cmd): World
    requires c.WritePointer? && WriteStatus(w.files, w.tracker, c) == Success
  {
    var p, q := Key(c.pointerFile), Key(c.pointeeFile);
    var address := c.pointeeOffset + w.tracker[q].base;
    w.(files := w.files[p := Write(w.files[p], c.offset, ToLe(address, c.size))],
       tracker := w.tracker[q := w.tracker[q].(tableOnly := false)])
  }

  // ----- the first pass -----

  function StepStatus(w: World, c: Cmd, restricted: set<Mem>, r: Reply): Status {
    match c
    case Allocate(_, _) => AllocateStatus(w, c, restricted, r)
    case AddPointer(_, _, _, _) => PointerStatus(w.tracker, c)
    case AddChecksum(_, _, _, _) => ChecksumStatus(w.tracker, c)
    case WritePointer(_, _, _, _, _) => WriteStatus(w.files, w.tracker, c)
    case Unknown => Success
  }

  function Next(w: World, c: Cmd, restricted: set<Mem>, r: Reply): World
    requires StepStatus(w, c, restricted, r) == Success
  {
    match c
    case Allocate(_, _) => Allocated(w, c, restricted, r)
    case AddPointer(_, _, _, _) => w.(tracker := Relocated(w.tracker, c))
    case AddChecksum(_, _, _, _) => w.(tracker := Checksummed(w.tracker, c))
    case WritePointer(_, _, _, _, _) => Sent(w, c)
    case Unknown => w
  }

  /** The world after the first `n` commands, if they all succeed. */
  function First(w: World, s: Script, restricted: set<Mem>, env: nat -> Reply, n: nat): Option<World>
    requires n <= |s|
  {
    if n == 0 then Some(w)
    else
      match First(w, s, restricted, env, n - 1)
      case None => None
      case Some(v) =>
        if StepStatus(v, s[n - 1], restricted, env(n - 1)) == Success
        then Some(Next(v, s[n - 1], restricted, env(n - 1))) else None
  }
}

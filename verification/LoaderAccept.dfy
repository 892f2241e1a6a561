/** Which commands the linker/loader accepts, in numbers, and which visits succeed. */
module LoaderAccept {
  import opened Bytes
  import opened LoaderScript
  import opened LoaderFirstPass
  import opened LoaderSecondPass

  /** A blob is restricted exactly if some ADD_POINTER narrower than 8 bytes points into it. */
  lemma RestrictedIff(s: Script, k: Mem)
    ensures k in NarrowPointees(s, |s|) <==>
              exists i :: 0 <= i < |s| && s[i].AddPointer? && s[i].size < 8 && Key(s[i].pointeeFile) == k
  {
  }

  /**
   ALLOCATE succeeds exactly for a terminated name of an unknown blob that the host has a file for, an
   alignment of at most a page, services that serve, and whole pages apart from all others: below
   4 GiB for a restricted blob, anywhere in the address space otherwise.
   */
  lemma AllocateIff(w: World, c: Cmd, restricted: set<Mem>, r: Reply)
    requires c.Allocate?
    ensures AllocateStatus(w, c, restricted, r) == Success <==>
              && c.file[55] == 0 && c.alignment <= 4096
              && Key(c.file) in w.files && Key(c.file) !in w.tracker && r.base.Some? && r.pool && r.node
              && var n := PagesFor(|w.files[Key(c.file)]|);
                 && r.base.value % 4096 == 0
                 && r.base.value + 4096 * n < 0x1_0000_0000_0000_0000
                 && (Key(c.file) in restricted ==> r.base.value + 4096 * n <= 0x1_0000_0000)
                 && (r.base.value, n) !in w.live
                 && forall p :: p in w.live ==> r.base.value + 4096 * n <= p.0 || p.0 + 4096 * p.1 <= r.base.value
  {
  }

  /** ADD_POINTER succeeds exactly for a field of 1, 2, 4 or 8 bytes in a known blob that holds an offset into the other. */
  lemma PointerIff(t: Tracker, c: Cmd)
    requires c.AddPointer?
    ensures PointerStatus(t, c) == Success <==>
              && c.pointerFile[55] == 0 && c.pointeeFile[55] == 0
              && Key(c.pointerFile) in t && Key(c.pointeeFile) in t
              && c.size in {1, 2, 4, 8} && c.offset + c.size <= |t[Key(c.pointerFile)].data|
              && var v := Le(t[Key(c.pointerFile)].data[c.offset..c.offset + c.size]);
                 var q := t[Key(c.pointeeFile)];
                 && v < |q.data|
                 && (c.size == 1 ==> v + q.base < 0x100) && (c.size == 2 ==> v + q.base < 0x1_0000)
                 && (c.size == 4 ==> v + q.base < 0x1_0000_0000)
  {
    hide Le;
    Pow256Values();
  }

  /** ADD_CHECKSUM succeeds exactly for a range and a result byte inside a known blob. */
  lemma ChecksumIff(t: Tracker, c: Cmd)
    requires c.AddChecksum?
    ensures ChecksumStatus(t, c) == Success <==>
              && c.file[55] == 0 && Key(c.file) in t
              && c.result < |t[Key(c.file)].data| && c.start + c.length <= |t[Key(c.file)].data|
  {
  }

  /** WRITE_POINTER succeeds exactly for a field inside a file of the host and an offset inside a known blob. */
  lemma WriteIff(f: Files, t: Tracker, c: Cmd)
    requires c.WritePointer?
    ensures WriteStatus(f, t, c) == Success <==>
              && c.pointerFile[55] == 0 && c.pointeeFile[55] == 0
              && Key(c.pointerFile) in f && Key(c.pointeeFile) in t
              && c.size in {1, 2, 4, 8} && c.offset + c.size <= |f[Key(c.pointerFile)]|
              && c.pointeeOffset < |t[Key(c.pointeeFile)].data|
              && var v := c.pointeeOffset + t[Key(c.pointeeFile)].base;
                 && (c.size == 1 ==> v < 0x100) && (c.size == 2 ==> v < 0x1_0000)
                 && (c.size == 4 ==> v < 0x1_0000_0000)
  {
    Pow256Values();
  }

  /**
   A visit inside its pointee succeeds exactly if its target was seen before, or room for the seen
   pointer is found and, for a table to install, fewer than 128 are installed and the protocol takes it.
   */
  lemma VisitIff(v: Second, c: Cmd, r: Reply)
    requires c.AddPointer? && Placed(v.tracker, c) && InPointee(v.tracker, c)
    ensures VisitStatus(v, c, r) == Success <==>
              || Target(v.tracker, c) in v.seen
              || (r.seen && ((KindAt(v.tracker, c).Facs? || KindAt(v.tracker, c).Table?) ==>
                   |v.tables| != 128 && r.key.Some? && r.key.value !in v.acpi))
  {
    hide Recognise, Target;
  }
}

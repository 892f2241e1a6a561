/**
 The second pass of the linker/loader: following every ADD_POINTER once more, recognising ACPI
 tables at its target and installing them.
 */
module LoaderSecondPass {
  import opened Bytes
  import opened Acpi
  import opened LoaderScript
  import opened LoaderFirstPass

  const MAX_TABLES: nat := 128
  const FACS_SIZE: nat := 64
  const ARM_BOOT_ARCH_OFFSET: nat := 129

  const FACS_SIGNATURE: Mem := [0x46, 0x41, 0x43, 0x53]
  const FADT_SIGNATURE: Mem := [0x46, 0x41, 0x43, 0x50]
  const RSDT_SIGNATURE: Mem := [0x52, 0x53, 0x44, 0x54]
  const XSDT_SIGNATURE: Mem := [0x58, 0x53, 0x44, 0x54]

  // ----- recognising a table -----

  datatype Kind = Facs(size: nat) | Table(size: nat) | RootTable | Opaque

  predicate Installs(k: Kind) { k.Facs? || k.Table? }

  /** The kind of what starts at offset `o` of a blob and may extend to its end. */
  function Recognise(m: Mem, o: nat): (k: Kind)
    requires o <= |m|
    ensures k.Facs? ==> FACS_SIZE <= k.size && o + k.size <= |m|
    ensures k.Table? ==> HEADER_SIZE <= k.size && o + k.size <= |m| && Sum(m, o, o + k.size) % 256 == 0
  {
    var left := |m| - o;
    if FACS_SIZE <= left && FACS_SIZE <= U32(m, o + 4) <= left && m[o..o + 4] == FACS_SIGNATURE then
      Facs(U32(m, o + 4))
    else if HEADER_SIZE <= left && HEADER_SIZE <= U32(m, o + 4) <= left && Sum(m, o, o + U32(m, o + 4)) % 256 == 0 then
      if m[o..o + 4] == RSDT_SIGNATURE || m[o..o + 4] == XSDT_SIGNATURE then RootTable else Table(U32(m, o + 4))
    else Opaque
  }

  // ----- the FADT patch of AArch64 -----

  predicate PatchDue(m: Mem, o: nat, size: nat)
    requires HEADER_SIZE <= size && o + size <= |m|
  {
    && m[o..o + 4] == FADT_SIGNATURE
    && size >= ARM_BOOT_ARCH_OFFSET + 2
    && Le(m[o + ARM_BOOT_ARCH_OFFSET..o + ARM_BOOT_ARCH_OFFSET + 2]) % 2 == 0
  }

  /** Bit 0 of ArmBootArch set, and the checksum computed anew. */
  function Patch(m: Mem, o: nat, size: nat): (r: Mem)
    requires HEADER_SIZE <= size && o + size <= |m| && PatchDue(m, o, size)
    ensures |r| == |m|
  {
    var boot := Le(m[o + ARM_BOOT_ARCH_OFFSET..o + ARM_BOOT_ARCH_OFFSET + 2]) + 1;
    var n := Write(m, o + ARM_BOOT_ARCH_OFFSET, ToLe(boot, 2))[o + CHECKSUM_OFFSET := 0];
    n[o + CHECKSUM_OFFSET := Complement(Sum(n, o, o + size))]
  }

  lemma TwoBytes(e: Mem)
    requires |e| == 2
    ensures Le(e) == e[0] as int + 256 * e[1] as int
    ensures e[0] % 2 == 0 ==> ToLe(Le(e) + 1, 2) == [e[0] + 1, e[1]]
  {
    assert Le(e[1..]) == e[1] + 256 * Le(e[1..][1..]) && e[1..][1..] == [];
    var v := Le(e) + 1;
    assert ToLe(v, 2) == [v % 256] + ToLe(v / 256, 1);
    assert ToLe(v / 256, 1) == [v / 256 % 256] + ToLe(v / 256 / 256, 0);
  }

  /** The patch changes two bytes of the table and leaves it summing to zero. */
  lemma PatchIs(m: Mem, o: nat, size: nat)
    requires 36 <= size && o + size <= |m| && PatchDue(m, o, size)
    ensures Patch(m, o, size)[o + 129] == m[o + 129] + 1
    ensures Patch(m, o, size)[o + 129] % 2 == 1
    ensures forall x :: 0 <= x < |m| && x != o + 129 && x != o + 9 ==> Patch(m, o, size)[x] == m[x]
    ensures Sum(Patch(m, o, size), o, o + size) % 256 == 0
  {
    var e := m[o + ARM_BOOT_ARCH_OFFSET..o + ARM_BOOT_ARCH_OFFSET + 2];
    TwoBytes(e);
    var n := Write(m, o + ARM_BOOT_ARCH_OFFSET, ToLe(Le(e) + 1, 2));
    assert n[o + ARM_BOOT_ARCH_OFFSET] == e[0] + 1 && n[o + ARM_BOOT_ARCH_OFFSET + 1] == e[1];
    var z := n[o + CHECKSUM_OFFSET := 0];
    var sum := Complement(Sum(z, o, o + size));
    assert Patch(m, o, size) == n[o + CHECKSUM_OFFSET := sum] by {
      assert z[o + CHECKSUM_OFFSET := sum] == n[o + CHECKSUM_OFFSET := sum];
    }
    ChecksumFixes(n, o, o + size, o + CHECKSUM_OFFSET);
  }

  // ----- one visit -----

  /** A table handed to InstallAcpiTable, which copies it. */
  datatype Installed = Installed(address: nat, key: nat, bytes: Mem, facs: bool)

  datatype Second = Second(tracker: Tracker, seen: set<nat>, tables: seq<Installed>, acpi: map<nat, Mem>)

  /** The condition of both ASSERTs. */
  predicate InPointee(t: Tracker, c: Cmd)
    requires c.AddPointer? && Placed(t, c)
  {
    var b := t[Key(c.pointeeFile)];
    b.base <= Target(t, c) < b.base + |b.data|
  }

  /** Where in its pointee the field points. */
  function Offset(t: Tracker, c: Cmd): nat
    requires c.AddPointer? && Placed(t, c) && InPointee(t, c)
  {
    Target(t, c) - t[Key(c.pointeeFile)].base
  }

  function KindAt(t: Tracker, c: Cmd): Kind
    requires c.AddPointer? && Placed(t, c) && InPointee(t, c)
  {
    Recognise(t[Key(c.pointeeFile)].data, Offset(t, c))
  }

  function VisitStatus(v: Second, c: Cmd, r: Reply): Status
    requires c.AddPointer? && Placed(v.tracker, c)
  {
    if !InPointee(v.tracker, c) then Asserted
    else if Target(v.tracker, c) in v.seen then Success
    else if !r.seen then OutOfResources
    else if !Installs(KindAt(v.tracker, c)) then Success
    else if |v.tables| == MAX_TABLES then OutOfResources
    else if r.key.None? || r.key.value in v.acpi then Refused
    else Success
  }

  /** A table is about to be installed from this field, and on AArch64 it is an FADT to patch first. */
  predicate Patches(arm: bool, v: Second, c: Cmd)
    requires c.AddPointer? && Placed(v.tracker, c)
  {
    && arm && InPointee(v.tracker, c) && Target(v.tracker, c) !in v.seen && Installs(KindAt(v.tracker, c))
    && PatchDue(v.tracker[Key(c.pointeeFile)].data, Offset(v.tracker, c), KindAt(v.tracker, c).size)
  }

  /** The pointee's bytes as they are when the table is installed. */
  function PatchedData(arm: bool, v: Second, c: Cmd): (r: Mem)
    requires c.AddPointer? && Placed(v.tracker, c) && InPointee(v.tracker, c)
    ensures |r| == |v.tracker[Key(c.pointeeFile)].data|
  {
    var m := v.tracker[Key(c.pointeeFile)].data;
    if Patches(arm, v, c) then Patch(m, Offset(v.tracker, c), KindAt(v.tracker, c).size) else m
  }

  function PatchedTracker(arm: bool, v: Second, c: Cmd): Tracker
    requires c.AddPointer? && Placed(v.tracker, c) && InPointee(v.tracker, c)
  {
    var q := Key(c.pointeeFile);
    v.tracker[q := v.tracker[q].(data := PatchedData(arm, v, c))]
  }

  /** The table a first visit installs. */
  function NewTable(arm: bool, v: Second, c: Cmd, key: nat): Installed
    requires c.AddPointer? && Placed(v.tracker, c) && InPointee(v.tracker, c)
    requires Target(v.tracker, c) !in v.seen && Installs(KindAt(v.tracker, c))
  {
    var o, k := Offset(v.tracker, c), KindAt(v.tracker, c);
    Installed(Target(v.tracker, c), key, PatchedData(arm, v, c)[o..o + k.size], k.Facs?)
  }

  /** The bytes a patch may change: the checksum and the low byte of ArmBootArch. */
  predicate PatchedByte(t: Tracker, c: Cmd, k: Mem, x: int)
    requires c.AddPointer? && Placed(t, c) && InPointee(t, c)
  {
    var o := Offset(t, c);
    k == Key(c.pointeeFile) && (x == o + CHECKSUM_OFFSET || x == o + ARM_BOOT_ARCH_OFFSET)
  }

  lemma PatchedIs(arm: bool, v: Second, c: Cmd)
    requires c.AddPointer? && Placed(v.tracker, c) && InPointee(v.tracker, c)
    ensures !Patches(arm, v, c) ==> PatchedTracker(arm, v, c) == v.tracker
    ensures SameShape(v.tracker, PatchedTracker(arm, v, c))
    ensures forall k, x :: k in v.tracker && 0 <= x < |v.tracker[k].data| && !PatchedByte(v.tracker, c, k, x)
              ==> PatchedTracker(arm, v, c)[k].data[x] == v.tracker[k].data[x]
  {
    hide Patch, PatchDue, Recognise, Target;
    if Patches(arm, v, c) {
      PatchIs(v.tracker[Key(c.pointeeFile)].data, Offset(v.tracker, c), KindAt(v.tracker, c).size);
    }
  }

  /** The blobs are the same and have not moved. */
  ghost predicate SameSpots(t: Tracker, u: Tracker) {
    u.Keys == t.Keys && Grown(t, u)
  }

  function VisitNext(arm: bool, v: Second, c: Cmd, r: Reply): (w: Second)
    requires c.AddPointer? && Placed(v.tracker, c) && VisitStatus(v, c, r) == Success
    ensures SameSpots(v.tracker, w.tracker)
  {
    var a, q := Target(v.tracker, c), Key(c.pointeeFile);
    if a in v.seen then v
    else if KindAt(v.tracker, c).RootTable? then v.(seen := v.seen + {a})
    else if KindAt(v.tracker, c).Opaque? then
      v.(seen := v.seen + {a}, tracker := v.tracker[q := v.tracker[q].(tableOnly := false)])
    else
      var t := NewTable(arm, v, c, r.key.value);
      Second(PatchedTracker(arm, v, c), v.seen + {a}, v.tables + [t], v.acpi[t.key := t.bytes])
  }

  // ----- the whole pass -----

  /** The state after the first `n` commands have been visited, if every visit succeeds. */
  ghost function After(arm: bool, v: Second, s: Script, env: nat -> Reply, n: nat): (r: Option<Second>)
    requires n <= |s| && AllPlaced(v.tracker, s, |s|)
    ensures r.Some? ==> SameSpots(v.tracker, r.value.tracker)
  {
    if n == 0 then Some(v)
    else
      match After(arm, v, s, env, n - 1)
      case None => None
      case Some(w) =>
        PlacedKept(v.tracker, w.tracker, s[n - 1]);
        if !s[n - 1].AddPointer? then Some(w)
        else if VisitStatus(w, s[n - 1], env(n - 1)) != Success then None
        else Some(VisitNext(arm, w, s[n - 1], env(n - 1)))
  }

  /** Everything about a run of the second pass. */
  datatype Run = Run(arm: bool, start: Second, script: Script, env: nat -> Reply)

  ghost predicate Ready(z: Run) {
    AllPlaced(z.start.tracker, z.script, |z.script|) && z.start.seen == {} && z.start.tables == []
  }

  ghost predicate Reaches(z: Run, n: nat)
    requires n <= |z.script| && Ready(z)
  {
    After(z.arm, z.start, z.script, z.env, n).Some?
  }

  ghost function StateAt(z: Run, n: nat): (v: Second)
    requires n <= |z.script| && Ready(z) && Reaches(z, n)
    ensures SameSpots(z.start.tracker, v.tracker)
  {
    After(z.arm, z.start, z.script, z.env, n).value
  }

  lemma StepAt(z: Run, n: nat)
    requires n < |z.script| && Ready(z) && Reaches(z, n + 1)
    ensures Reaches(z, n)
    ensures !z.script[n].AddPointer? ==> StateAt(z, n + 1) == StateAt(z, n)
    ensures Placed(StateAt(z, n).tracker, z.script[n])
    ensures z.script[n].AddPointer? ==>
              && VisitStatus(StateAt(z, n), z.script[n], z.env(n)) == Success
              && StateAt(z, n + 1) == VisitNext(z.arm, StateAt(z, n), z.script[n], z.env(n))
  {
    hide VisitNext, VisitStatus;
  }

  // ----- pointer fields stay what the first pass made them -----

  /** The FADT patch made while visiting command `n` spares the fields still to be followed. */
  ghost predicate Spares(z: Run, n: nat)
    requires n < |z.script| && Ready(z) && Reaches(z, n)
  {
    var v, c := StateAt(z, n), z.script[n];
    c.AddPointer? && Placed(v.tracker, c) && Patches(z.arm, v, c) ==>
      forall k, x :: n < k < |z.script| && z.script[k].AddPointer?
                  && z.script[k].offset <= x < z.script[k].offset + z.script[k].size
                  ==> !PatchedByte(v.tracker, c, Key(z.script[k].pointerFile), x)
  }

  ghost predicate Undisturbed(z: Run)
    requires Ready(z)
  {
    forall n :: 0 <= n < |z.script| && Reaches(z, n) ==> Spares(z, n)
  }

  lemma OnlyArmDisturbs(z: Run)
    requires Ready(z) && !z.arm
    ensures Undisturbed(z)
  {
  }

  /** A visit leaves every field alone that its patch spares. */
  lemma VisitFrame(arm: bool, v: Second, c: Cmd, r: Reply, e: Cmd)
    requires c.AddPointer? && Placed(v.tracker, c) && VisitStatus(v, c, r) == Success
    requires e.AddPointer? && Placed(v.tracker, e)
    requires Patches(arm, v, c) ==>
               forall x :: e.offset <= x < e.offset + e.size ==> !PatchedByte(v.tracker, c, Key(e.pointerFile), x)
    ensures Placed(VisitNext(arm, v, c, r).tracker, e)
    ensures Target(VisitNext(arm, v, c, r).tracker, e) == Target(v.tracker, e)
  {
    hide PatchedTracker, PatchedByte, NewTable;
    var p := Key(e.pointerFile);
    var w := VisitNext(arm, v, c, r);
    PatchedIs(arm, v, c);
    FieldFrame(v.tracker[p].data, w.tracker[p].data, e.offset, e.size);
  }

  ghost predicate Intact(z: Run, n: nat)
    requires n <= |z.script| && Ready(z) && Reaches(z, n)
  {
    forall k :: n <= k < |z.script| && z.script[k].AddPointer? ==>
      Placed(StateAt(z, n).tracker, z.script[k]) && Target(StateAt(z, n).tracker, z.script[k]) == Target(z.start.tracker, z.script[k])
  }

  lemma IntactNext(z: Run, n: nat)
    requires n < |z.script| && Ready(z) && Reaches(z, n + 1) && Reaches(z, n)
    requires Intact(z, n) && Spares(z, n)
    ensures Intact(z, n + 1)
  {
    hide VisitNext, VisitStatus, Patches, PatchedByte, After;
    StepAt(z, n);
    forall k | n < k < |z.script| && z.script[k].AddPointer?
      ensures Placed(StateAt(z, n + 1).tracker, z.script[k])
      ensures Target(StateAt(z, n + 1).tracker, z.script[k]) == Target(z.start.tracker, z.script[k])
    {
      if z.script[n].AddPointer? {
        VisitFrame(z.arm, StateAt(z, n), z.script[n], z.env(n), z.script[k]);
      }
    }
  }

  lemma {:induction false} FieldsIntact(z: Run, n: nat)
    requires n <= |z.script| && Ready(z) && Reaches(z, n)
    requires Undisturbed(z)
    ensures Intact(z, n)
  {
    hide VisitNext, VisitStatus, Spares, After;
    if n == 0 {
      Begin(z);
    } else {
      StepAt(z, n - 1);
      FieldsIntact(z, n - 1);
      IntactNext(z, n - 1);
    }
  }

  lemma Begin(z: Run)
    requires Ready(z)
    ensures Reaches(z, 0) && StateAt(z, 0) == z.start
  {
  }

  /**
   Second-pass validity: the lookups that the second pass does not check succeed, the field it
   reads is inside its blob, and, when every field was aimed and no patch hits one, the value it
   reads is inside the pointee.
   */
  lemma SecondPassValid(z: Run, n: nat)
    requires n < |z.script| && Ready(z) && Reaches(z, n) && z.script[n].AddPointer?
    ensures Placed(StateAt(z, n).tracker, z.script[n])
    ensures Undisturbed(z) && AllAimed(z.start.tracker, z.script, |z.script|) ==>
              InPointee(StateAt(z, n).tracker, z.script[n])
  {
    PlacedKept(z.start.tracker, StateAt(z, n).tracker, z.script[n]);
    if Undisturbed(z) && AllAimed(z.start.tracker, z.script, |z.script|) {
      FieldsIntact(z, n);
      assert Aimed(z.start.tracker, z.script[n]);
    }
  }

  lemma {:induction false} ReachesEarlier(z: Run, m: nat, n: nat)
    requires m <= n <= |z.script| && Ready(z) && Reaches(z, n)
    ensures Reaches(z, m)
  {
    hide After;
    if m < n {
      StepAt(z, n - 1);
      ReachesEarlier(z, m, n - 1);
    }
  }

  // ----- when patches spare the fields: a test between the passes -----

  /** If the target of the field were patched as an FADT, that could change byte `x` of blob `k`. */
  ghost predicate WouldPatch(t: Tracker, c: Cmd, k: Mem, x: int) {
    c.AddPointer? && Placed(t, c) && InPointee(t, c) && PatchedByte(t, c, k, x)
  }

  /** Some command before `n` would. */
  ghost predicate Reachable(t: Tracker, s: Script, n: nat, k: Mem, x: int)
    requires n <= |s|
  {
    exists j :: 0 <= j < n && WouldPatch(t, s[j], k, x)
  }

  /** Command `i` points at the signature of an FADT, or at one that an earlier patch could complete. */
  ghost predicate MayPatch(t: Tracker, s: Script, i: nat)
    requires i < |s|
  {
    var c := s[i];
    && c.AddPointer? && Placed(t, c) && InPointee(t, c)
    && var m, o := t[Key(c.pointeeFile)].data, Offset(t, c);
       && o + 4 <= |m|
       && (m[o..o + 4] == FADT_SIGNATURE || exists x :: o <= x < o + 4 && Reachable(t, s, i, Key(c.pointeeFile), x))
  }

  ghost predicate InField(c: Cmd, k: Mem, x: int) {
    c.AddPointer? && Key(c.pointerFile) == k && c.offset <= x < c.offset + c.size
  }

  /**
   No FADT that the tracker left by the first pass shows lies so that patching it changes a field
   that is followed later. It can be tested before anything is installed.
   */
  ghost predicate FadtsSpare(t: Tracker, s: Script) {
    forall i, k, b, x :: 0 <= i < k < |s| && MayPatch(t, s, i) && InField(s[k], b, x) ==> !WouldPatch(t, s[i], b, x)
  }

  /** In particular if no target at all lies 9 or 129 bytes before such a field. */
  lemma AimsSpare(t: Tracker, s: Script)
    requires forall i, k, b, x :: 0 <= i < k < |s| && InField(s[k], b, x) ==> !WouldPatch(t, s[i], b, x)
    ensures FadtsSpare(t, s)
  {
  }

  /** Only bytes that an earlier command would patch differ from what the first pass left. */
  ghost predicate OnlyPatched(z: Run, n: nat)
    requires n <= |z.script| && Ready(z) && Reaches(z, n)
  {
    forall k, x :: k in z.start.tracker && 0 <= x < |z.start.tracker[k].data|
                && StateAt(z, n).tracker[k].data[x] != z.start.tracker[k].data[x]
                ==> Reachable(z.start.tracker, z.script, n, k, x)
  }

  /** The same value read at the same places has the same meaning. */
  lemma SameOffset(t: Tracker, u: Tracker, c: Cmd)
    requires SameSpots(t, u) && c.AddPointer? && Placed(t, c) && Placed(u, c) && Target(u, c) == Target(t, c)
    ensures InPointee(u, c) <==> InPointee(t, c)
    ensures InPointee(t, c) ==> Offset(u, c) == Offset(t, c)
    ensures InPointee(t, c) ==> forall k, x :: PatchedByte(u, c, k, x) <==> PatchedByte(t, c, k, x)
  {
  }

  /** A visit that patches does so at a signature that was there, or became one by an earlier patch. */
  lemma PatchIsForeseen(z: Run, n: nat)
    requires n < |z.script| && Ready(z) && Visited(z, n)
    requires Intact(z, n) && OnlyPatched(z, n)
    requires Patches(z.arm, StateAt(z, n), z.script[n])
    ensures MayPatch(z.start.tracker, z.script, n)
  {
    hide After, Target, Recognise, Reachable;
    var t, u, c := z.start.tracker, StateAt(z, n).tracker, z.script[n];
    SameOffset(t, u, c);
    var o, q := Offset(t, c), Key(c.pointeeFile);
    if t[q].data[o..o + 4] != FADT_SIGNATURE {
      assert u[q].data[o..o + 4] == FADT_SIGNATURE;
      var x :| o <= x < o + 4 && t[q].data[x] != u[q].data[x];
      assert Reachable(t, z.script, n, q, x);
    }
  }

  lemma SparesNext(z: Run, n: nat)
    requires n < |z.script| && Ready(z) && Reaches(z, n)
    requires FadtsSpare(z.start.tracker, z.script) && Intact(z, n) && OnlyPatched(z, n)
    ensures Spares(z, n)
  {
    hide After, Target, Patches, MayPatch, OnlyPatched, PatchedByte;
    var v, c := StateAt(z, n), z.script[n];
    if c.AddPointer? && Patches(z.arm, v, c) {
      SameOffset(z.start.tracker, v.tracker, c);
      PatchIsForeseen(z, n);
      PatchesInPointee(z.arm, v, c);
      forall k, x | n < k < |z.script| && z.script[k].AddPointer?
                 && z.script[k].offset <= x < z.script[k].offset + z.script[k].size
        ensures !PatchedByte(v.tracker, c, Key(z.script[k].pointerFile), x)
      {
        assert InField(z.script[k], Key(z.script[k].pointerFile), x);
      }
    }
  }

  lemma PatchesInPointee(arm: bool, v: Second, c: Cmd)
    requires c.AddPointer? && Placed(v.tracker, c) && Patches(arm, v, c)
    ensures InPointee(v.tracker, c)
  {
  }

  lemma OnlyPatchedNext(z: Run, n: nat)
    requires n < |z.script| && Ready(z) && Reaches(z, n + 1) && Reaches(z, n)
    requires Intact(z, n) && OnlyPatched(z, n)
    ensures OnlyPatched(z, n + 1)
  {
    hide After, Target, Recognise, PatchedByte, VisitStatus;
    StepAt(z, n);
    var t, v, w, c := z.start.tracker, StateAt(z, n), StateAt(z, n + 1), z.script[n];
    forall k, x | k in t && 0 <= x < |t[k].data| && w.tracker[k].data[x] != t[k].data[x]
      ensures Reachable(t, z.script, n + 1, k, x)
    {
      if v.tracker[k].data[x] != t[k].data[x] {
        var j :| 0 <= j < n && WouldPatch(t, z.script[j], k, x);
      } else {
        VisitChanges(z.arm, v, c, z.env(n), k, x);
        SameOffset(t, v.tracker, c);
        assert WouldPatch(t, z.script[n], k, x);
      }
    }
  }

  /** A visit changes only bytes that its patch may change. */
  lemma VisitChanges(arm: bool, v: Second, c: Cmd, r: Reply, k: Mem, x: nat)
    requires c.AddPointer? && Placed(v.tracker, c) && VisitStatus(v, c, r) == Success
    requires k in v.tracker && x < |v.tracker[k].data|
    requires VisitNext(arm, v, c, r).tracker[k].data[x] != v.tracker[k].data[x]
    ensures InPointee(v.tracker, c) && PatchedByte(v.tracker, c, k, x)
  {
    hide PatchedTracker, PatchedByte, NewTable, Target, Recognise;
    PatchedIs(arm, v, c);
  }

  /** Every visit of the run spares the fields still to be followed if the test between the passes says so. */
  lemma {:induction false} SparedSoFar(z: Run, n: nat)
    requires n <= |z.script| && Ready(z) && Reaches(z, n) && FadtsSpare(z.start.tracker, z.script)
    ensures Intact(z, n) && OnlyPatched(z, n)
    ensures n < |z.script| ==> Spares(z, n)
  {
    hide After, FadtsSpare, Spares, OnlyPatched, VisitNext, VisitStatus;
    if n == 0 {
      Begin(z);
      NothingPatched(z);
    } else {
      StepAt(z, n - 1);
      SparedSoFar(z, n - 1);
      OnlyPatchedNext(z, n - 1);
      IntactNext(z, n - 1);
    }
    if n < |z.script| {
      SparesNext(z, n);
    }
  }

  lemma NothingPatched(z: Run)
    requires Ready(z) && Reaches(z, 0) && StateAt(z, 0) == z.start
    ensures OnlyPatched(z, 0)
  {
  }

  lemma FadtsSpareUndisturbed(z: Run)
    requires Ready(z) && FadtsSpare(z.start.tracker, z.script)
    ensures Undisturbed(z)
  {
    hide Spares, FadtsSpare;
    forall n | 0 <= n < |z.script| && Reaches(z, n)
      ensures Spares(z, n)
    {
      SparedSoFar(z, n);
    }
  }

  // ----- what is installed -----

  /** The run gets to command `i`, and it is an ADD_POINTER. */
  ghost predicate Visited(z: Run, i: nat)
    requires i < |z.script| && Ready(z)
  {
    Reaches(z, i) && z.script[i].AddPointer?
  }

  /** Where the field of command `i` points when it is visited. */
  ghost function Aim(z: Run, i: nat): nat
    requires i < |z.script| && Ready(z) && Visited(z, i)
  {
    PlacedKept(z.start.tracker, StateAt(z, i).tracker, z.script[i]);
    Target(StateAt(z, i).tracker, z.script[i])
  }

  /** While no patch disturbs the fields, that is where the first pass left it pointing. */
  lemma AimIsLeft(z: Run, i: nat)
    requires i < |z.script| && Ready(z) && Visited(z, i) && Undisturbed(z)
    ensures Placed(z.start.tracker, z.script[i])
    ensures Aim(z, i) == Target(z.start.tracker, z.script[i])
  {
    hide Undisturbed;
    FieldsIntact(z, i);
  }

  /** Command `i` is the first to point at its target. */
  ghost predicate Fresh(z: Run, i: nat)
    requires i < |z.script| && Ready(z)
  {
    Visited(z, i) && forall j :: 0 <= j < i && Visited(z, j) ==> Aim(z, j) != Aim(z, i)
  }

  /** While no patch disturbs the fields, being first can be read off what the first pass left. */
  lemma FreshIsFirst(z: Run, i: nat)
    requires i < |z.script| && Ready(z) && Visited(z, i) && Undisturbed(z)
    ensures Fresh(z, i) <==> forall j :: 0 <= j < i && z.script[j].AddPointer? ==>
                               Target(z.start.tracker, z.script[j]) != Target(z.start.tracker, z.script[i])
  {
    hide Undisturbed, After, Target;
    AimIsLeft(z, i);
    forall j | 0 <= j < i && z.script[j].AddPointer?
      ensures Visited(z, j) && Aim(z, j) == Target(z.start.tracker, z.script[j])
    {
      ReachesEarlier(z, j, i);
      AimIsLeft(z, j);
    }
  }

  /** What the first visit of the target of command `i` recognises there. */
  ghost predicate Sees(z: Run, i: nat, k: Kind)
    requires i < |z.script| && Ready(z)
  {
    && Fresh(z, i)
    && Placed(StateAt(z, i).tracker, z.script[i]) && InPointee(StateAt(z, i).tracker, z.script[i])
    && KindAt(StateAt(z, i).tracker, z.script[i]) == k
  }

  ghost predicate Selected(z: Run, i: nat)
    requires i < |z.script| && Ready(z)
  {
    exists k :: Sees(z, i, k) && Installs(k)
  }

  ghost predicate SeenIs(z: Run, n: nat)
    requires n <= |z.script| && Ready(z) && Reaches(z, n)
  {
    forall a :: a in StateAt(z, n).seen <==> WasRead(z, n, a)
  }

  /** One of the first `n` commands was visited and its field read `a`. */
  ghost predicate WasRead(z: Run, n: nat, a: nat)
    requires n <= |z.script| && Ready(z)
  {
    exists i :: 0 <= i < n && Visited(z, i) && Aim(z, i) == a
  }

  lemma WasReadNext(z: Run, n: nat, a: nat)
    requires n < |z.script| && Ready(z)
    ensures WasRead(z, n + 1, a) <==> WasRead(z, n, a) || (Visited(z, n) && Aim(z, n) == a)
  {
    hide Reaches, Aim;
    if WasRead(z, n, a) {
      var i :| 0 <= i < n && Visited(z, i) && Aim(z, i) == a;
      assert Visited(z, i);
    }
  }

  /** The seen pointers are what the visits so far have read. */
  lemma {:induction false} SeenAreTargets(z: Run, n: nat)
    requires n <= |z.script| && Ready(z) && Reaches(z, n)
    ensures SeenIs(z, n)
  {
    hide After, KindAt, PatchedTracker, NewTable;
    if n == 0 {
      Begin(z);
    } else {
      StepAt(z, n - 1);
      SeenAreTargets(z, n - 1);
      SeenStep(z, n - 1);
    }
  }

  lemma VisitSeen(arm: bool, v: Second, c: Cmd, r: Reply)
    requires c.AddPointer? && Placed(v.tracker, c) && VisitStatus(v, c, r) == Success
    ensures VisitNext(arm, v, c, r).seen == v.seen + {Target(v.tracker, c)}
  {
    hide KindAt, Target, PatchedTracker, NewTable;
  }

  lemma SeenStep(z: Run, n: nat)
    requires n < |z.script| && Ready(z) && Reaches(z, n + 1) && Reaches(z, n)
    requires SeenIs(z, n)
    ensures SeenIs(z, n + 1)
  {
    hide After, VisitNext, VisitStatus, WasRead;
    StepAt(z, n);
    if z.script[n].AddPointer? {
      VisitSeen(z.arm, StateAt(z, n), z.script[n], z.env(n));
      assert StateAt(z, n + 1).seen == StateAt(z, n).seen + {Aim(z, n)};
    }
    var next := n + 1;
    forall a: nat
      ensures a in StateAt(z, next).seen <==> WasRead(z, next, a)
    {
      WasReadNext(z, n, a);
    }
  }

  /** A target is new exactly if no earlier visit has read the same address. */
  lemma FreshIffUnseen(z: Run, n: nat)
    requires n < |z.script| && Ready(z) && Reaches(z, n) && z.script[n].AddPointer?
    requires SeenIs(z, n)
    ensures Placed(StateAt(z, n).tracker, z.script[n]) && Target(StateAt(z, n).tracker, z.script[n]) == Aim(z, n)
    ensures Fresh(z, n) <==> Aim(z, n) !in StateAt(z, n).seen
  {
    hide After;
  }

  /** Exactly the selected commands below `n`, in order. */
  ghost predicate Chosen(z: Run, at: seq<nat>, n: nat)
    requires n <= |z.script| && Ready(z)
  {
    && (forall j :: 0 <= j < |at| ==> at[j] < n && Selected(z, at[j]))
    && (forall j, k :: 0 <= j < k < |at| ==> at[j] < at[k])
    && (forall i :: 0 <= i < n && Selected(z, i) ==> i in at)
  }

  ghost predicate InOrder(z: Run, tables: seq<Installed>, at: seq<nat>, n: nat)
    requires n <= |z.script| && Ready(z) && Chosen(z, at, n)
  {
    |at| == |tables| && forall j :: 0 <= j < |at| ==> CopyOf(z, at[j], tables[j])
  }

  /**
   The table is what the visit of command `i` found: at the address where the field points, and
   as many bytes of the pointee as the kind says, with the FADT patch applied.
   */
  ghost predicate CopyOf(z: Run, i: nat, x: Installed)
    requires i < |z.script| && Ready(z)
  {
    && Visited(z, i) && x.address == Aim(z, i)
    && var v, c := StateAt(z, i), z.script[i];
       && Placed(v.tracker, c) && InPointee(v.tracker, c) && Installs(KindAt(v.tracker, c))
       && |x.bytes| == KindAt(v.tracker, c).size
       && x.bytes == PatchedData(z.arm, v, c)[Offset(v.tracker, c)..Offset(v.tracker, c) + |x.bytes|]
  }

  /**
   The installed tables are, in first-visit order, copies of the targets recognised as tables
   other than RSDT and XSDT when they were first visited.
   */
  lemma {:induction false} InstallOrder(z: Run, n: nat) returns (at: seq<nat>)
    requires n <= |z.script| && Ready(z) && Reaches(z, n)
    ensures Chosen(z, at, n)
    ensures InOrder(z, StateAt(z, n).tables, at, n)
  {
    hide After, VisitNext, VisitStatus, Chosen, InOrder, SeenIs;
    if n == 0 {
      Begin(z);
      NoneChosen(z);
      at := [];
    } else {
      StepAt(z, n - 1);
      var before := InstallOrder(z, n - 1);
      SeenAreTargets(z, n - 1);
      at := OrderStep(z, n - 1, before);
    }
  }

  lemma NoneChosen(z: Run)
    requires Ready(z)
    ensures Chosen(z, [], 0) && InOrder(z, z.start.tables, [], 0)
  {
  }

  lemma SelectedIff(z: Run, n: nat)
    requires n < |z.script| && Ready(z) && Reaches(z, n + 1) && Reaches(z, n)
    requires SeenIs(z, n)
    ensures Selected(z, n) ==> z.script[n].AddPointer?
    ensures Selected(z, n) <==> |StateAt(z, n + 1).tables| == |StateAt(z, n).tables| + 1
    ensures !Selected(z, n) ==> StateAt(z, n + 1).tables == StateAt(z, n).tables
    ensures Selected(z, n) ==> StateAt(z, n + 1).tables[..|StateAt(z, n).tables|] == StateAt(z, n).tables
                               && CopyOf(z, n, StateAt(z, n + 1).tables[|StateAt(z, n).tables|])
  {
    hide After, Recognise, PatchedTracker, Fresh, SeenIs;
    StepAt(z, n);
    if z.script[n].AddPointer? {
      FreshIffUnseen(z, n);
      if Aim(z, n) !in StateAt(z, n).seen {
        assert Sees(z, n, KindAt(StateAt(z, n).tracker, z.script[n]));
      }
    } else {
      FreshIsPointer(z, n);
    }
  }

  lemma FreshIsPointer(z: Run, n: nat)
    requires n < |z.script| && Ready(z)
    ensures Fresh(z, n) ==> z.script[n].AddPointer?
  {
  }

  lemma OrderStep(z: Run, n: nat, before: seq<nat>) returns (at: seq<nat>)
    requires n < |z.script| && Ready(z) && Reaches(z, n + 1) && Reaches(z, n)
    requires SeenIs(z, n)
    requires Chosen(z, before, n) && InOrder(z, StateAt(z, n).tables, before, n)
    ensures Chosen(z, at, n + 1) && InOrder(z, StateAt(z, n + 1).tables, at, n + 1)
  {
    hide After, SeenIs, Selected, CopyOf;
    SelectedIff(z, n);
    var xs, ys := StateAt(z, n).tables, StateAt(z, n + 1).tables;
    if Selected(z, n) {
      at := before + [n];
      assert forall j :: 0 <= j < |xs| ==> ys[j] == xs[j] by {
        assert forall j :: 0 <= j < |xs| ==> ys[j] == ys[..|xs|][j];
      }
    } else {
      at := before;
    }
  }

  // ----- every installed table -----

  /** A copy of part of one blob that is a table, and on AArch64 offers PSCI when it is an FADT. */
  ghost predicate GoodTable(arm: bool, t: Tracker, x: Installed) {
    && GoodBytes(arm, x.bytes, x.facs)
    && exists k :: k in t && t[k].base <= x.address && x.address + |x.bytes| <= t[k].base + |t[k].data|
  }

  ghost predicate GoodTables(arm: bool, v: Second) {
    && |v.tables| <= MAX_TABLES
    && (forall j :: 0 <= j < |v.tables| ==> GoodTable(arm, v.tracker, v.tables[j]))
    && (forall j :: 0 <= j < |v.tables| ==> v.tables[j].address in v.seen)
    && (forall j, k :: 0 <= j < k < |v.tables| ==> v.tables[j].address != v.tables[k].address)
  }

  lemma {:induction false} SumSlice(m: Mem, o: nat, size: nat, lo: nat)
    requires o + size <= |m| && lo <= size
    ensures Sum(m[o..o + size], lo, size) == Sum(m, o + lo, o + size)
    decreases size - lo
  {
    if lo < size {
      SumSlice(m, o, size, lo + 1);
    }
  }

  /** What the bytes of a table promise, whichever blob they were copied from. */
  ghost predicate GoodBytes(arm: bool, bytes: Mem, facs: bool) {
    && HEADER_SIZE <= |bytes|
    && (if facs then FACS_SIZE <= |bytes| && bytes[..4] == FACS_SIGNATURE else Sum(bytes, 0, |bytes|) % 256 == 0)
    && (arm && bytes[..4] == FADT_SIGNATURE && |bytes| >= ARM_BOOT_ARCH_OFFSET + 2 ==> bytes[ARM_BOOT_ARCH_OFFSET] % 2 == 1)
  }

  lemma UnpatchedBytes(arm: bool, m: Mem, o: nat)
    requires o <= |m| && Installs(Recognise(m, o))
    requires arm ==> !PatchDue(m, o, Recognise(m, o).size)
    ensures GoodBytes(arm, m[o..o + Recognise(m, o).size], Recognise(m, o).Facs?)
  {
    var size := Recognise(m, o).size;
    var x := m[o..o + size];
    SumSlice(m, o, size, 0);
    assert x[..4] == m[o..o + 4];
    if arm && size >= ARM_BOOT_ARCH_OFFSET + 2 && x[..4] == FADT_SIGNATURE {
      TwoBytes(m[o + ARM_BOOT_ARCH_OFFSET..o + ARM_BOOT_ARCH_OFFSET + 2]);
      assert x[ARM_BOOT_ARCH_OFFSET] == m[o + ARM_BOOT_ARCH_OFFSET..o + ARM_BOOT_ARCH_OFFSET + 2][0];
    }
  }

  lemma PatchedBytes(m: Mem, o: nat)
    requires o <= |m| && Installs(Recognise(m, o))
    requires PatchDue(m, o, Recognise(m, o).size)
    ensures !Recognise(m, o).Facs?
    ensures GoodBytes(true, Patch(m, o, Recognise(m, o).size)[o..o + Recognise(m, o).size], false)
  {
    hide Patch;
    var size := Recognise(m, o).size;
    var n := Patch(m, o, size);
    PatchIs(m, o, size);
    SumSlice(n, o, size, 0);
    assert m[o..o + 4][3] != FACS_SIGNATURE[3];
  }

  lemma NewTableGood(arm: bool, v: Second, c: Cmd, key: nat)
    requires c.AddPointer? && Placed(v.tracker, c) && InPointee(v.tracker, c)
    requires Target(v.tracker, c) !in v.seen && Installs(KindAt(v.tracker, c))
    ensures GoodTable(arm, PatchedTracker(arm, v, c), NewTable(arm, v, c, key))
  {
    hide Patch, GoodBytes, Target, Recognise, PatchDue;
    var q, o := Key(c.pointeeFile), Offset(v.tracker, c);
    var m := v.tracker[q].data;
    if Patches(arm, v, c) {
      PatchedBytes(m, o);
    } else {
      UnpatchedBytes(arm, m, o);
    }
    assert q in PatchedTracker(arm, v, c);
  }

  lemma GoodTablesVisit(arm: bool, v: Second, c: Cmd, r: Reply)
    requires c.AddPointer? && Placed(v.tracker, c) && VisitStatus(v, c, r) == Success
    requires GoodTables(arm, v)
    ensures GoodTables(arm, VisitNext(arm, v, c, r))
  {
    hide PatchedTracker, GoodBytes, Target, Recognise;
    var w := VisitNext(arm, v, c, r);
    forall j | 0 <= j < |v.tables|
      ensures GoodTable(arm, w.tracker, v.tables[j])
    {
      var k :| k in v.tracker && v.tracker[k].base <= v.tables[j].address
               && v.tables[j].address + |v.tables[j].bytes| <= v.tracker[k].base + |v.tracker[k].data|;
      assert k in w.tracker;
    }
    if |w.tables| > |v.tables| {
      NewTableGood(arm, v, c, r.key.value);
    }
  }

  /** Installed addresses never repeat, there are at most 128, each is inside a blob and in good order. */
  lemma {:induction false} TablesAreGood(z: Run, n: nat)
    requires n <= |z.script| && Ready(z) && Reaches(z, n)
    ensures GoodTables(z.arm, StateAt(z, n))
  {
    hide After, VisitNext, VisitStatus;
    if n == 0 {
      Begin(z);
    } else {
      hide GoodTables;
      StepAt(z, n - 1);
      TablesAreGood(z, n - 1);
      if z.script[n - 1].AddPointer? {
        GoodTablesVisit(z.arm, StateAt(z, n - 1), z.script[n - 1], z.env(n - 1));
      }
    }
  }

  // ----- the firmware's own table set -----

  /** The ACPI tables are the ones from before and, under new keys, those installed. */
  ghost predicate Registered(acpi0: map<nat, Mem>, acpi: map<nat, Mem>, tables: seq<Installed>) {
    && (forall k :: k in acpi0 ==> k in acpi && acpi[k] == acpi0[k])
    && (forall k :: k in acpi && k !in acpi0 ==> HasKey(tables, k))
    && (forall j :: 0 <= j < |tables| ==> tables[j].key !in acpi0 && tables[j].key in acpi && acpi[tables[j].key] == tables[j].bytes)
    && (forall j, k :: 0 <= j < k < |tables| ==> tables[j].key != tables[k].key)
  }

  ghost predicate HasKey(tables: seq<Installed>, k: nat) {
    exists j :: 0 <= j < |tables| && tables[j].key == k
  }

  lemma RegisteredAdd(acpi0: map<nat, Mem>, acpi: map<nat, Mem>, tables: seq<Installed>, t: Installed)
    requires Registered(acpi0, acpi, tables) && t.key !in acpi
    ensures Registered(acpi0, acpi[t.key := t.bytes], tables + [t])
  {
    var now := tables + [t];
    forall k | k in acpi[t.key := t.bytes] && k !in acpi0
      ensures HasKey(now, k)
    {
      if k == t.key {
        assert now[|tables|].key == k;
      } else {
        var j :| 0 <= j < |tables| && tables[j].key == k;
        assert now[j].key == k;
      }
    }
  }

  lemma RegisteredVisit(acpi0: map<nat, Mem>, arm: bool, v: Second, c: Cmd, r: Reply)
    requires c.AddPointer? && Placed(v.tracker, c) && VisitStatus(v, c, r) == Success
    requires Registered(acpi0, v.acpi, v.tables)
    ensures Registered(acpi0, VisitNext(arm, v, c, r).acpi, VisitNext(arm, v, c, r).tables)
  {
    hide PatchedTracker, Target, Recognise, PatchedData, Registered;
    if Target(v.tracker, c) !in v.seen && Installs(KindAt(v.tracker, c)) {
      RegisteredAdd(acpi0, v.acpi, v.tables, NewTable(arm, v, c, r.key.value));
    }
  }

  lemma {:induction false} TablesAreRegistered(z: Run, n: nat)
    requires n <= |z.script| && Ready(z) && Reaches(z, n)
    ensures Registered(z.start.acpi, StateAt(z, n).acpi, StateAt(z, n).tables)
  {
    hide After, VisitNext, VisitStatus;
    if n == 0 {
      Begin(z);
    } else {
      hide Registered;
      StepAt(z, n - 1);
      TablesAreRegistered(z, n - 1);
      if z.script[n - 1].AddPointer? {
        RegisteredVisit(z.start.acpi, z.arm, StateAt(z, n - 1), z.script[n - 1], z.env(n - 1));
      }
    }
  }

  /** Uninstalling the newest table leaves the others registered. */
  lemma RegisteredPop(acpi0: map<nat, Mem>, acpi: map<nat, Mem>, tables: seq<Installed>)
    requires Registered(acpi0, acpi, tables) && |tables| > 0
    ensures Registered(acpi0, acpi - {tables[|tables| - 1].key}, tables[..|tables| - 1])
  {
    var n := |tables| - 1;
    forall k | k in acpi && k !in acpi0 && k != tables[n].key
      ensures HasKey(tables[..n], k)
    {
      var j :| 0 <= j < |tables| && tables[j].key == k;
      assert tables[..n][j].key == k;
    }
  }

  // ----- which blobs survive -----

  /** Some target in blob `k` was not a table when first visited. */
  ghost predicate HostsOther(z: Run, n: nat, k: Mem)
    requires n <= |z.script| && Ready(z)
  {
    exists i :: 0 <= i < n && Sees(z, i, Opaque) && z.script[i].AddPointer? && Key(z.script[i].pointeeFile) == k
  }

  ghost predicate FlagsAfter(z: Run, n: nat)
    requires n <= |z.script| && Ready(z) && Reaches(z, n)
  {
    forall k :: k in z.start.tracker ==> (StateAt(z, n).tracker[k].tableOnly <==> z.start.tracker[k].tableOnly && !HostsOther(z, n, k))
  }

  lemma OtherIff(z: Run, n: nat, k: Mem)
    requires n < |z.script| && Ready(z) && Reaches(z, n + 1) && Reaches(z, n)
    requires SeenIs(z, n)
    requires k in StateAt(z, n).tracker && k in StateAt(z, n + 1).tracker
    ensures StateAt(z, n + 1).tracker[k].tableOnly
            == (StateAt(z, n).tracker[k].tableOnly
                && !(Sees(z, n, Opaque) && z.script[n].AddPointer? && Key(z.script[n].pointeeFile) == k))
  {
    hide After, Recognise, Fresh, SeenIs, NewTable, PatchedData;
    StepAt(z, n);
    if z.script[n].AddPointer? {
      FreshIffUnseen(z, n);
    }
  }

  lemma {:induction false} Retention(z: Run, n: nat)
    requires n <= |z.script| && Ready(z) && Reaches(z, n)
    ensures FlagsAfter(z, n)
  {
    hide After, VisitNext, VisitStatus, Sees, SeenIs;
    if n == 0 {
      Begin(z);
    } else {
      StepAt(z, n - 1);
      Retention(z, n - 1);
      SeenAreTargets(z, n - 1);
      forall k | k in z.start.tracker
        ensures StateAt(z, n).tracker[k].tableOnly <==> z.start.tracker[k].tableOnly && !HostsOther(z, n, k)
      {
        OtherIff(z, n - 1, k);
      }
    }
  }
}

/** The linker/loader: command handlers, the two passes, and the rollback of every failure. */
module Loader {
  import opened Bytes
  import opened Acpi
  import opened LoaderScript
  import opened LoaderFirstPass
  import opened LoaderSecondPass

  /** "etc/table-loader" */
  const LOADER_FILE: Mem := [0x65, 0x74, 0x63, 0x2f, 0x74, 0x61, 0x62, 0x6c, 0x65, 0x2d, 0x6c, 0x6f, 0x61, 0x64, 0x65, 0x72]

  /** The pool allocations made outside the handling of a command. */
  datatype Setup = Setup(loader: bool, restricted: bool, tracker: bool, keys: bool, seen: bool)

  /** ALLOCATE handed out nothing that ends beyond the address space. */
  ghost predicate Expressible(t: Tracker) {
    forall k :: k in t ==> t[k].base + |t[k].data| < ADDRESS_SPACE
  }

  /** The pre-scan can record the pointee of command `i`, if it has to. */
  ghost predicate Recordable(s: Script, env: nat -> Reply, i: nat)
    requires i < |s|
  {
    Narrow(s[i]) ==>
      Terminated(s[i].pointeeFile) && (env(i).narrow || Key(s[i].pointeeFile) in NarrowPointees(s, i))
  }

  /** Destinations of the first `n` commands' WRITE_POINTERs are zero, the rest is as it was. */
  ghost predicate Revoked(f0: Files, f: Files, s: Script, n: nat)
    requires n <= |s|
  {
    && f.Keys == f0.Keys
    && (forall k :: k in f ==> |f[k]| == |f0[k]|)
    && (forall k, x :: k in f && 0 <= x < |f[k]| ==> f[k][x] == if Covered(s, n, k, x) then 0 else f0[k][x])
  }

  /** Every WRITE_POINTER among the first `n` commands comes before `end`. */
  ghost predicate SubsetEnd(s: Script, end: nat, n: nat)
    requires n <= |s|
  {
    end <= n && forall i :: end <= i < n ==> !s[i].WritePointer?
  }

  class Firmware {
    const arm: bool                    // MDE_CPU_AARCH64
    var files: Files                   // fw_cfg
    var live: set<Span>                // page allocations
    var acpi: map<nat, Mem>            // tables of the ACPI table protocol, by key
    var tracker: Tracker
    var seen: set<nat>
    var keys: seq<nat>                 // InstalledKey
    ghost var tables: seq<Installed>   // what the keys stand for

    constructor (arm: bool, files: Files, live: set<Span>, acpi: map<nat, Mem>)
      ensures this.arm == arm && this.files == files && this.live == live && this.acpi == acpi
      ensures tracker == map[] && seen == {} && keys == [] && tables == []
    {
      this.arm, this.files, this.live, this.acpi := arm, files, live, acpi;
      tracker, seen, keys, tables := map[], {}, [], [];
    }

    ghost function Here(): World
      reads this
    {
      World(files, live, tracker)
    }

    ghost function There(): Second
      reads this
    {
      Second(tracker, seen, tables, acpi)
    }

    ghost predicate KeysMatch()
      reads this
    {
      |keys| == |tables| && forall j :: 0 <= j < |keys| ==> keys[j] == tables[j].key
    }

    // ----- the pre-scan -----

    method CollectAllocationsRestrictedTo32Bit(s: Script, env: nat -> Reply) returns (status: Status, restricted: set<Mem>)
      ensures status == Success || status == ProtocolError(MalformedName) || status == OutOfResources
      ensures status == Success <==> forall i :: 0 <= i < |s| ==> Recordable(s, env, i)
      ensures status == Success ==> restricted == NarrowPointees(s, |s|)
    {
      restricted := {};
      var i := 0;
      while i < |s|
        invariant 0 <= i <= |s|
        invariant restricted == NarrowPointees(s, i)
        invariant forall j :: 0 <= j < i ==> Recordable(s, env, j)
      {
        if Narrow(s[i]) {
          if !Terminated(s[i].pointeeFile) {
            assert !Recordable(s, env, i);
            return ProtocolError(MalformedName), restricted;
          }
          if Key(s[i].pointeeFile) !in restricted && !env(i).narrow {
            assert !Recordable(s, env, i);
            return OutOfResources, restricted;
          }
          restricted := restricted + {Key(s[i].pointeeFile)};
        }
        i := i + 1;
      }
      status := Success;
    }

    // ----- command handlers of the first pass -----

    method ProcessCmdAllocate(c: Cmd, restricted: set<Mem>, r: Reply) returns (status: Status)
      requires c.Allocate?
      modifies this`live, this`tracker
      ensures status == AllocateStatus(old(Here()), c, restricted, r)
      ensures Here() == if status == Success then Allocated(old(Here()), c, restricted, r) else old(Here())
    {
      if !Terminated(c.file) {
        return ProtocolError(MalformedName);
      }
      if c.alignment > PAGE_SIZE {
        return Unsupported;
      }
      var k := Key(c.file);
      if k !in files {
        return NotFound;
      }
      var numPages := PagesFor(|files[k]|);
      if r.base.None? || !Fits(live, (r.base.value, numPages), MaxAddress(restricted, k)) {
        return Refused;
      }
      var pages := (r.base.value, numPages);
      live := live + {pages};
      if r.pool {
        if k in tracker {
          status := ProtocolError(Duplicate);
        } else if !r.node {
          status := OutOfResources;
        } else {
          tracker := tracker[k := Blob(r.base.value, files[k], true)];
          return Success;
        }
      } else {
        status := OutOfResources;
      }
      live := live - {pages};
    }

    method ProcessCmdAddPointer(c: Cmd) returns (status: Status)
      requires c.AddPointer? && Expressible(tracker)
      modifies this`tracker
      ensures status == PointerStatus(old(tracker), c)
      ensures tracker == if status == Success then Relocated(old(tracker), c) else old(tracker)
    {
      if !Terminated(c.pointerFile) || !Terminated(c.pointeeFile) {
        return ProtocolError(MalformedName);
      }
      var p, q := Key(c.pointerFile), Key(c.pointeeFile);
      if p !in tracker || q !in tracker {
        return ProtocolError(BadReference);
      }
      var blob, blob2 := tracker[p], tracker[q];
      if !Width(c.size) || |blob.data| < c.size || |blob.data| - c.size < c.offset {
        return ProtocolError(BadLocation);
      }
      var value := Field(blob.data, c.offset, c.size);
      if value >= |blob2.data| {
        return ProtocolError(BadValue);
      }
      assert blob2.base <= ADDRESS_SPACE - 1 - |blob2.data|;
      value := value + blob2.base;
      if c.size < 8 && value / Pow256(c.size) != 0 {
        return ProtocolError(Unrepresentable);
      }
      tracker := tracker[p := blob.(data := Write(blob.data, c.offset, ToLe(value, c.size)))];
      status := Success;
    }

    method ProcessCmdAddChecksum(c: Cmd) returns (status: Status)
      requires c.AddChecksum?
      modifies this`tracker
      ensures status == ChecksumStatus(old(tracker), c)
      ensures tracker == if status == Success then Checksummed(old(tracker), c) else old(tracker)
    {
      if !Terminated(c.file) {
        return ProtocolError(MalformedName);
      }
      var k := Key(c.file);
      if k !in tracker {
        return ProtocolError(BadReference);
      }
      var blob := tracker[k];
      if |blob.data| <= c.result || |blob.data| < c.length || |blob.data| - c.length < c.start {
        return ProtocolError(BadRange);
      }
      var sum := Complement(Sum(blob.data, c.start, c.start + c.length));
      tracker := tracker[k := blob.(data := blob.data[c.result := sum])];
      status := Success;
    }

    method ProcessCmdWritePointer(c: Cmd) returns (status: Status)
      requires c.WritePointer? && Expressible(tracker)
      modifies this`files, this`tracker
      ensures status == WriteStatus(old(files), old(tracker), c)
      ensures Here() == if status == Success then Sent(old(Here()), c) else old(Here())
    {
      if !Terminated(c.pointerFile) || !Terminated(c.pointeeFile) {
        return ProtocolError(MalformedName);
      }
      var p, q := Key(c.pointerFile), Key(c.pointeeFile);
      if p !in files || q !in tracker {
        return ProtocolError(BadReference);
      }
      if !Width(c.size) || |files[p]| < c.size || |files[p]| - c.size < c.offset {
        return ProtocolError(BadLocation);
      }
      var blob := tracker[q];
      var value := c.pointeeOffset;
      if value >= |blob.data| {
        return ProtocolError(BadValue);
      }
      assert blob.base <= ADDRESS_SPACE - 1 - |blob.data|;
      value := value + blob.base;
      if c.size < 8 && value / Pow256(c.size) != 0 {
        return ProtocolError(Unrepresentable);
      }
      files := files[p := Write(files[p], c.offset, ToLe(value, c.size))];
      tracker := tracker[q := blob.(tableOnly := false)];
      status := Success;
    }

    // ----- the first pass -----

    method Execute(c: Cmd, restricted: set<Mem>, r: Reply) returns (status: Status)
      requires Expressible(tracker)
      modifies this`files, this`live, this`tracker
      ensures status == StepStatus(old(Here()), c, restricted, r)
      ensures Here() == if status == Success then Next(old(Here()), c, restricted, r) else old(Here())
    {
      match c
      case Allocate(_, _) => status := ProcessCmdAllocate(c, restricted, r);
      case AddPointer(_, _, _, _) => status := ProcessCmdAddPointer(c);
      case AddChecksum(_, _, _, _) => status := ProcessCmdAddChecksum(c);
      case WritePointer(_, _, _, _, _) => status := ProcessCmdWritePointer(c);
      case Unknown => status := Success;
    }

    method FirstPass(s: Script, restricted: set<Mem>, env: nat -> Reply) returns (status: Status, done: nat, subsetEnd: nat)
      requires tracker == map[]
      modifies this`files, this`live, this`tracker
      ensures done <= |s| && First(old(Here()), s, restricted, env, done) == Some(Here())
      ensures status == if done == |s| then Success else StepStatus(Here(), s[done], restricted, env(done))
      ensures done < |s| ==> status != Success
      ensures SubsetEnd(s, subsetEnd, done)
    {
      hide StepStatus, Next;
      ghost var w0 := Here();
      status, done, subsetEnd := Success, 0, 0;
      while done < |s| && status == Success
        invariant done <= |s|
        invariant First(w0, s, restricted, env, done) == Some(Here())
        invariant status == Success || (done < |s| && status == StepStatus(Here(), s[done], restricted, env(done)))
        invariant SubsetEnd(s, subsetEnd, done)
        decreases |s| - done, if status == Success then 1 else 0
      {
        ghost var w := Here();
        Ends(w0, s, restricted, env, done);
        status := Execute(s[done], restricted, env(done));
        if status == Success {
          assert First(w0, s, restricted, env, done + 1) == Some(Next(w, s[done], restricted, env(done)));
          if s[done].WritePointer? {
            subsetEnd := done + 1;
          }
          done := done + 1;
        }
      }
    }

    // ----- the second pass -----

    method Process2ndPassCmdAddPointer(c: Cmd, r: Reply) returns (status: Status)
      requires c.AddPointer? && Placed(tracker, c) && KeysMatch() && |keys| <= MAX_TABLES
      modifies this`tracker, this`seen, this`keys, this`tables, this`acpi
      ensures status == VisitStatus(old(There()), c, r)
      ensures status == Success ==> There() == VisitNext(arm, old(There()), c, r)
      ensures SameSpots(old(tracker), tracker)
      ensures status != Success ==> seen == old(seen) && tables == old(tables) && acpi == old(acpi)
      ensures KeysMatch()
    {
      hide Recognise, Patch, Target;
      var q := Key(c.pointeeFile);
      var value := Target(tracker, c);
      if value < tracker[q].base || value >= tracker[q].base + |tracker[q].data| {
        return Asserted;
      }
      if value in seen {
        return Success;
      }
      if !r.seen {
        return OutOfResources;
      }
      var kind := Recognise(tracker[q].data, value - tracker[q].base);
      if Installs(kind) {
        status := InstallTarget(c, r);
        return;
      }
      seen := seen + {value};
      if kind.Opaque? {
        tracker := tracker[q := tracker[q].(tableOnly := false)];
      }
      status := Success;
    }

    /** The rest of the visit once its target has turned out to be a table to install. */
    method InstallTarget(c: Cmd, r: Reply) returns (status: Status)
      requires c.AddPointer? && Placed(tracker, c) && KeysMatch() && |keys| <= MAX_TABLES
      requires InPointee(tracker, c) && Target(tracker, c) !in seen && r.seen && Installs(KindAt(tracker, c))
      modifies this`tracker, this`seen, this`keys, this`tables, this`acpi
      ensures status == VisitStatus(old(There()), c, r)
      ensures status == Success ==> There() == VisitNext(arm, old(There()), c, r)
      ensures SameSpots(old(tracker), tracker)
      ensures status != Success ==> seen == old(seen) && tables == old(tables) && acpi == old(acpi)
      ensures KeysMatch()
    {
      hide Recognise, Patch, Target, PatchDue, SameSpots;
      ghost var v := There();
      PatchedSpots(arm, v, c);
      var q, value := Key(c.pointeeFile), Target(tracker, c);
      var o, kind := value - tracker[q].base, KindAt(tracker, c);
      seen := seen + {value};
      if |keys| == MAX_TABLES {
        seen := seen - {value};
        return OutOfResources;
      }
      PatchFadt(q, o, kind.size);
      assert tracker == PatchedTracker(arm, v, c);
      if r.key.None? || r.key.value in acpi {
        seen := seen - {value};
        return Refused;
      }
      InstallAcpiTable(value, r.key.value, tracker[q].data[o..o + kind.size], kind.Facs?);
      status := Success;
    }

    /** On AArch64, makes an FADT that does not advertise PSCI do so. */
    method PatchFadt(q: Mem, o: nat, size: nat)
      requires q in tracker && HEADER_SIZE <= size && o + size <= |tracker[q].data|
      modifies this`tracker
      ensures var m := old(tracker)[q].data;
              tracker == old(tracker)[q := old(tracker)[q].(data := if arm && PatchDue(m, o, size) then Patch(m, o, size) else m)]
    {
      hide PatchDue, Patch;
      if arm && PatchDue(tracker[q].data, o, size) {
        tracker := tracker[q := tracker[q].(data := Patch(tracker[q].data, o, size))];
      }
    }

    /** The protocol copies the table and returns its key, which is kept for a rollback. */
    method InstallAcpiTable(address: nat, key: nat, bytes: Mem, facs: bool)
      requires KeysMatch()
      modifies this`keys, this`tables, this`acpi
      ensures KeysMatch() && acpi == old(acpi)[key := bytes]
      ensures tables == old(tables) + [Installed(address, key, bytes, facs)]
    {
      acpi := acpi[key := bytes];
      keys := keys + [key];
      tables := tables + [Installed(address, key, bytes, facs)];
    }

    method SecondPass(s: Script, env: nat -> Reply) returns (status: Status, ghost n: nat)
      requires Ready(Run(arm, There(), s, env)) && KeysMatch()
      modifies this`tracker, this`seen, this`keys, this`tables, this`acpi
      ensures n <= |s| && KeysMatch()
      ensures var z := Run(arm, old(There()), s, env);
              && Reaches(z, n)
              && (if n == |s| then status == Success && There() == StateAt(z, n)
                  else s[n].AddPointer? && Placed(StateAt(z, n).tracker, s[n])
                       && status == VisitStatus(StateAt(z, n), s[n], env(n)) && status != Success
                       && acpi == StateAt(z, n).acpi && tables == StateAt(z, n).tables)
      ensures SameSpots(old(tracker), tracker)
    {
      hide VisitStatus, VisitNext, After;
      ghost var z := Run(arm, There(), s, env);
      status := Success;
      Begin(z);
      var i := 0;
      while i < |s| && status == Success
        invariant i <= |s| && KeysMatch() && Reaches(z, i)
        invariant status == Success ==> There() == StateAt(z, i)
        invariant status != Success ==>
          && i < |s| && s[i].AddPointer? && Placed(StateAt(z, i).tracker, s[i])
          && status == VisitStatus(StateAt(z, i), s[i], env(i))
          && acpi == StateAt(z, i).acpi && tables == StateAt(z, i).tables
        invariant SameSpots(z.start.tracker, tracker)
        decreases |s| - i, if status == Success then 1 else 0
      {
        PlacedKept(z.start.tracker, tracker, s[i]);
        if s[i].AddPointer? {
          TablesAreGood(z, i);
          status := Process2ndPassCmdAddPointer(s[i], env(i));
        }
        if status == Success {
          StepOn(z, i);
          i := i + 1;
        }
      }
      n := i;
    }

    // ----- rollback -----

    method UninstallAcpiTables(ghost acpi0: map<nat, Mem>)
      requires KeysMatch() && Registered(acpi0, acpi, tables)
      modifies this`keys, this`tables, this`acpi
      ensures acpi == acpi0 && keys == [] && tables == []
    {
      while |keys| > 0
        invariant KeysMatch() && Registered(acpi0, acpi, tables)
      {
        RegisteredPop(acpi0, acpi, tables);
        var k := keys[|keys| - 1];
        keys := keys[..|keys| - 1];
        tables := tables[..|tables| - 1];
        acpi := acpi - {k};
      }
      assert forall k :: k in acpi ==> k in acpi0;
    }

    /** Zeroes the destination of a WRITE_POINTER that succeeded. */
    method UndoCmdWritePointer(c: Cmd)
      requires c.WritePointer? && Key(c.pointerFile) in files
      requires Inside(c.offset, c.size, |files[Key(c.pointerFile)]|)
      modifies this`files
      ensures files.Keys == old(files).Keys && forall k :: k in files ==> |files[k]| == |old(files)[k]|
      ensures forall k, x :: k in files && 0 <= x < |files[k]| ==>
                files[k][x] == if Covers(c, k, x) then 0 else old(files)[k][x]
    {
      var p := Key(c.pointerFile);
      files := files[p := Write(files[p], c.offset, seq(c.size, _ => 0))];
    }

    method UndoWritePointers(s: Script, subsetEnd: nat, ghost t: Tracker)
      requires subsetEnd <= |s| && AllSendable(files, t, s, subsetEnd)
      modifies this`files
      ensures Revoked(old(files), files, s, subsetEnd)
    {
      ghost var f0 := files;
      var i := subsetEnd;
      while i > 0
        invariant 0 <= i <= subsetEnd
        invariant files.Keys == f0.Keys && forall k :: k in files ==> |files[k]| == |f0[k]|
        invariant forall k, x :: k in files && 0 <= x < |files[k]| ==>
                    files[k][x] == if CoveredFrom(s, i, subsetEnd, k, x) then 0 else f0[k][x]
      {
        i := i - 1;
        assert Sendable(f0, t, s[i]);
        if s[i].WritePointer? {
          UndoCmdWritePointer(s[i]);
        }
        assert forall k, x :: CoveredFrom(s, i, subsetEnd, k, x) <==> CoveredFrom(s, i + 1, subsetEnd, k, x) || Covers(s[i], k, x);
      }
      assert forall k, x :: CoveredFrom(s, 0, subsetEnd, k, x) <==> Covered(s, subsetEnd, k, x);
    }

    /** Frees every blob, or only those that host nothing but tables. */
    method ReleaseBlobs(all: bool)
      modifies this`tracker, this`live
      ensures tracker == map[]
      ensures live == old(live) - FreedSpans(old(tracker), all)
    {
      hide FreedExcept, FreedSpans, SpanOf;
      ghost var t0, live0 := tracker, live;
      FreedNoneAll(t0, all);
      while tracker != map[]
        invariant tracker.Keys <= t0.Keys && forall k :: k in tracker ==> tracker[k] == t0[k]
        invariant live == live0 - FreedExcept(t0, tracker.Keys, all)
        decreases |tracker.Keys|
      {
        assert tracker.Keys != {};
        var k :| k in tracker.Keys;
        FreedOneMore(t0, tracker.Keys, k, all);
        ReleaseBlob(k, all);
      }
    }

    method ReleaseBlob(k: Mem, all: bool)
      requires k in tracker
      modifies this`tracker, this`live
      ensures tracker.Keys == old(tracker).Keys - {k} && forall l :: l in tracker ==> tracker[l] == old(tracker)[l]
      ensures live == old(live) - if all || old(tracker)[k].tableOnly then {SpanOf(old(tracker)[k])} else {}
    {
      hide SpanOf;
      var blob := tracker[k];
      tracker := tracker - {k};
      if all || blob.tableOnly {
        live := live - {SpanOf(blob)};
      }
    }

    /** Forget what the host was told, if the run failed, and free what need not stay. */
    method TearDown(failed: bool, s: Script, subsetEnd: nat, done: nat, ghost w0: World, ghost w: World)
      requires done <= |s| && SubsetEnd(s, subsetEnd, done)
      requires Owned(w0.live, live, w.tracker) && SameSpots(w.tracker, tracker)
      requires files == w.files && AllSendable(w.files, w.tracker, s, done) && Rest(w0.files, w.files, s, done)
      modifies this`files, this`tracker, this`live
      ensures tracker == map[]
      ensures failed ==> live == w0.live && Revoked(w0.files, files, s, done)
      ensures !failed ==> files == w.files && live == w0.live + KeptSpans(old(tracker))
    {
      hide Owned, Rest, AllSendable, Revoked, SameSpots, FreedSpans, KeptSpans;
      ghost var t := tracker;
      if failed {
        SendableUpTo(w.files, w.tracker, s, subsetEnd, done);
        UndoWritePointers(s, subsetEnd, w.tracker);
        RevokedAll(w0.files, w.files, files, s, subsetEnd, done);
      }
      FreedIs(w0.live, live, w.tracker, t);
      ReleaseBlobs(failed);
    }

    /** The second pass with what it allocates, and the rollback of its installations. */
    method InstallTables(s: Script, env: nat -> Reply, setup: Setup) returns (status: Status)
      requires AllPlaced(tracker, s, |s|)
      modifies this`tracker, this`seen, this`keys, this`tables, this`acpi
      ensures SameSpots(old(tracker), tracker)
      ensures status.Failed() ==> acpi == old(acpi)
      ensures var z := SecondRun(arm, old(tracker), old(acpi), s, env);
              && (status == Success <==> setup.keys && setup.seen && Reaches(z, |s|))
              && (status == Success ==> acpi == StateAt(z, |s|).acpi && tracker == StateAt(z, |s|).tracker)
              && (status == Asserted <==> setup.keys && setup.seen && Stuck(z))
    {
      hide VisitNext, VisitStatus, After;
      ghost var z := SecondRun(arm, tracker, acpi, s, env);
      if !setup.keys || !setup.seen {
        return OutOfResources;
      }
      seen, keys, tables := {}, [], [];
      ghost var n;
      status, n := SecondPass(s, env);
      if n < |s| {
        Stops(z, n);
      } else {
        NotStuck(z);
      }
      if status.Failed() {
        TablesAreRegistered(z, n);
        UninstallAcpiTables(z.start.acpi);
      }
    }

    /** Everything between the pre-scan and the release of the loader script. */
    method RunScript(s: Script, restricted: set<Mem>, env: nat -> Reply, setup: Setup) returns (status: Status, done: nat)
      requires tracker == map[] && restricted == NarrowPointees(s, |s|)
      modifies this
      ensures done <= |s|
      ensures tracker == map[] || status == Asserted
      ensures var w0 := old(Here());
        && First(w0, s, restricted, env, done).Some?
        && (status.Failed() ==> live == w0.live && acpi == old(acpi) && Revoked(w0.files, files, s, done))
        && (status == Success <==> setup.keys && setup.seen && Completes(arm, w0, old(acpi), s, env))
        && (status == Success ==> done == |s| && Finished(arm, w0, old(acpi), s, env, files, live, acpi))
        && (status == Asserted <==> setup.keys && setup.seen && Halts(arm, w0, old(acpi), s, env))
        && (done < |s| ==>
              status != Success && status == StepStatus(First(w0, s, restricted, env, done).value, s[done], restricted, env(done)))
    {
      hide StepStatus, Next, First, Established, Owned, AllPlaced, Rest, AllSendable, Revoked, SameSpots, Spans;
      ghost var w0, acpi0 := Here(), acpi;
      var subsetEnd;
      status, done, subsetEnd := FirstPass(s, restricted, env);
      ghost var w := Here();
      FirstPassEstablishes(w0, s, restricted, env, done);
      EstablishedParts(w0, w, s, restricted, done);
      if status == Success {
        status := InstallTables(s, env, setup);
        if status == Asserted {
          return;
        }
      } else {
        FirstStops(w0, s, restricted, env, done);
        StepAsserts(w, s[done], restricted, env(done));
        assert SameSpots(w.tracker, tracker) by {
          SameSpotsSelf(tracker);
        }
      }
      TearDown(status != Success, s, subsetEnd, done, w0, w);
    }

    /**
     A run that fails leaves no page and no table behind and has zeroed every destination it wrote;
     it succeeds exactly when nothing it does fails.
     */
    method InstallQemuFwCfgTables(env: nat -> Reply, setup: Setup) returns (status: Status, done: nat)
      requires tracker == map[]
      modifies this
      ensures LOADER_FILE !in old(files) ==> status == NotFound
      ensures LOADER_FILE in old(files) && |old(files)[LOADER_FILE]| % ENTRY_SIZE != 0 ==> status == ProtocolError(BadLoaderSize)
      ensures !HasScript(old(files)) ==> files == old(files) && live == old(live) && acpi == old(acpi)
      ensures HasScript(old(files)) ==>
                var s, w0 := Commands(old(files)), old(Here());
                && done <= |s|
                && First(w0, s, NarrowPointees(s, |s|), env, done).Some?
                && (status.Failed() ==> live == w0.live && acpi == old(acpi) && Revoked(w0.files, files, s, done))
                && (status == Success <==> Provided(s, env, setup) && Completes(arm, w0, old(acpi), s, env))
                && (status == Success ==> Finished(arm, w0, old(acpi), s, env, files, live, acpi))
                && (status == Asserted <==> Provided(s, env, setup) && Halts(arm, w0, old(acpi), s, env))
                && (Provided(s, env, setup) && done < |s| ==>
                      status != Success && status == StepStatus(First(w0, s, NarrowPointees(s, |s|), env, done).value,
                                                                s[done], NarrowPointees(s, |s|), env(done)))
    {
      hide StepStatus, First, Completes, Finished, Halts, Revoked, Recordable, Entries;
      done := 0;
      if LOADER_FILE !in files {
        return NotFound, 0;
      }
      if |files[LOADER_FILE]| % ENTRY_SIZE != 0 {
        return ProtocolError(BadLoaderSize), 0;
      }
      var s := Entries(files[LOADER_FILE]);
      NothingDone(Here(), s, NarrowPointees(s, |s|), env);
      if !setup.loader || !setup.restricted {
        return OutOfResources, 0;
      }
      var restricted;
      status, restricted := CollectAllocationsRestrictedTo32Bit(s, env);
      if status != Success {
        return;
      }
      if !setup.tracker {
        return OutOfResources, 0;
      }
      status, done := RunScript(s, restricted, env, setup);
    }
  }

  ghost predicate HasScript(f: Files) {
    LOADER_FILE in f && |f[LOADER_FILE]| % ENTRY_SIZE == 0
  }

  ghost function Commands(f: Files): Script
    requires HasScript(f)
  {
    Entries(f[LOADER_FILE])
  }

  /** Every pool allocation succeeds and the pre-scan accepts the script. */
  ghost predicate Provided(s: Script, env: nat -> Reply, setup: Setup) {
    && setup.loader && setup.restricted && setup.tracker && setup.keys && setup.seen
    && forall i :: 0 <= i < |s| ==> Recordable(s, env, i)
  }

  lemma NothingDone(w: World, s: Script, restricted: set<Mem>, env: nat -> Reply)
    ensures First(w, s, restricted, env, 0).Some?
    ensures Revoked(w.files, w.files, s, 0)
  {
  }

  /** The run of the second pass over the tracker that the first pass left. */
  ghost function SecondRun(arm: bool, t: Tracker, acpi: map<nat, Mem>, s: Script, env: nat -> Reply): LoaderSecondPass.Run {
    LoaderSecondPass.Run(arm, Second(t, {}, [], acpi), s, env)
  }

  /** An ASSERT of the second pass fails at some command. */
  ghost predicate Stuck(z: LoaderSecondPass.Run)
    requires Ready(z)
  {
    exists n :: 0 <= n < |z.script| && StuckAt(z, n)
  }

  ghost predicate StuckAt(z: LoaderSecondPass.Run, n: nat)
    requires n < |z.script| && Ready(z)
  {
    && Reaches(z, n) && z.script[n].AddPointer?
    && Placed(StateAt(z, n).tracker, z.script[n]) && !InPointee(StateAt(z, n).tracker, z.script[n])
  }


  ghost function FirstEnd(w0: World, s: Script, env: nat -> Reply): Option<World> {
    First(w0, s, NarrowPointees(s, |s|), env, |s|)
  }

  /** Every command succeeds in both passes. */
  ghost predicate Completes(arm: bool, w0: World, acpi0: map<nat, Mem>, s: Script, env: nat -> Reply) {
    var w := FirstEnd(w0, s, env);
    w.Some? && AllPlaced(w.value.tracker, s, |s|) && Reaches(SecondRun(arm, w.value.tracker, acpi0, s, env), |s|)
  }

  /** What a successful run leaves behind. */
  ghost predicate Finished(arm: bool, w0: World, acpi0: map<nat, Mem>, s: Script, env: nat -> Reply,
                           files: Files, live: set<Span>, acpi: map<nat, Mem>)
  {
    && Completes(arm, w0, acpi0, s, env)
    && var w := FirstEnd(w0, s, env).value;
       var v := StateAt(SecondRun(arm, w.tracker, acpi0, s, env), |s|);
       files == w.files && live == w0.live + KeptSpans(v.tracker) && acpi == v.acpi
  }

  /** The first pass completes and the second one stops in an ASSERT. */
  ghost predicate Halts(arm: bool, w0: World, acpi0: map<nat, Mem>, s: Script, env: nat -> Reply) {
    var w := FirstEnd(w0, s, env);
    w.Some? && AllPlaced(w.value.tracker, s, |s|) && Stuck(SecondRun(arm, w.value.tracker, acpi0, s, env))
  }

  /** Nothing behind a failing visit is reached. */
  lemma FailEnds(z: LoaderSecondPass.Run, n: nat, m: nat)
    requires n < m <= |z.script| && Ready(z) && Reaches(z, n) && z.script[n].AddPointer?
    requires Placed(StateAt(z, n).tracker, z.script[n])
    requires VisitStatus(StateAt(z, n), z.script[n], z.env(n)) != Success
    ensures !Reaches(z, m)
  {
    hide After, VisitStatus, VisitNext;
    if Reaches(z, m) {
      ReachesEarlier(z, n + 1, m);
      StepAt(z, n);
    }
  }

  lemma StuckStatus(z: LoaderSecondPass.Run, n: nat)
    requires n < |z.script| && Ready(z) && Reaches(z, n) && z.script[n].AddPointer?
    requires Placed(StateAt(z, n).tracker, z.script[n])
    ensures StuckAt(z, n) <==> VisitStatus(StateAt(z, n), z.script[n], z.env(n)) == Asserted
  {
    hide After, KindAt;
  }

  /** The visit that fails first decides whether the run stops in an ASSERT. */
  lemma Stops(z: LoaderSecondPass.Run, n: nat)
    requires n < |z.script| && Ready(z) && Reaches(z, n) && z.script[n].AddPointer?
    requires Placed(StateAt(z, n).tracker, z.script[n])
    requires VisitStatus(StateAt(z, n), z.script[n], z.env(n)) != Success
    ensures !Reaches(z, |z.script|)
    ensures VisitStatus(StateAt(z, n), z.script[n], z.env(n)) == Asserted <==> Stuck(z)
  {
    hide After, VisitStatus, VisitNext, StuckAt;
    FailEnds(z, n, |z.script|);
    StuckStatus(z, n);
    if Stuck(z) {
      var k :| 0 <= k < |z.script| && StuckAt(z, k);
      if k < n {
        StuckEnds(z, k, n);
      } else if n < k {
        FailEnds(z, n, k);
        StuckReached(z, k);
      }
    }
  }

  lemma StuckReached(z: LoaderSecondPass.Run, k: nat)
    requires k < |z.script| && Ready(z) && StuckAt(z, k)
    ensures Reaches(z, k) && z.script[k].AddPointer? && Placed(StateAt(z, k).tracker, z.script[k])
  {
  }

  /** Nothing behind a failing ASSERT is reached. */
  lemma StuckEnds(z: LoaderSecondPass.Run, k: nat, n: nat)
    requires k < n <= |z.script| && Ready(z) && StuckAt(z, k)
    ensures !Reaches(z, n)
  {
    hide After, VisitStatus;
    StuckReached(z, k);
    StuckStatus(z, k);
    FailEnds(z, k, n);
  }

  lemma NotStuck(z: LoaderSecondPass.Run)
    requires Ready(z) && Reaches(z, |z.script|)
    ensures !Stuck(z)
  {
    if Stuck(z) {
      var k :| 0 <= k < |z.script| && StuckAt(z, k);
      StuckEnds(z, k, |z.script|);
    }
  }

  lemma {:induction false} FirstEarlier(w0: World, s: Script, restricted: set<Mem>, env: nat -> Reply, m: nat, n: nat)
    requires m <= n <= |s| && First(w0, s, restricted, env, n).Some?
    ensures First(w0, s, restricted, env, m).Some?
  {
    hide StepStatus, Next;
    if m < n {
      FirstEarlier(w0, s, restricted, env, m, n - 1);
    }
  }

  lemma FirstStops(w0: World, s: Script, restricted: set<Mem>, env: nat -> Reply, n: nat)
    requires n < |s| && First(w0, s, restricted, env, n).Some?
    requires StepStatus(First(w0, s, restricted, env, n).value, s[n], restricted, env(n)) != Success
    ensures First(w0, s, restricted, env, |s|).None?
  {
    hide StepStatus, Next;
    if First(w0, s, restricted, env, |s|).Some? {
      FirstEarlier(w0, s, restricted, env, n + 1, |s|);
    }
  }

  lemma EstablishedParts(w0: World, w: World, s: Script, restricted: set<Mem>, n: nat)
    requires n <= |s| && Established(w0, w, s, restricted, n)
    ensures Owned(w0.live, w.live, w.tracker) && AllPlaced(w.tracker, s, n)
    ensures AllSendable(w.files, w.tracker, s, n) && Rest(w0.files, w.files, s, n)
  {
    hide Owned, AllPlaced, AllSendable, Rest, Low, Flags, Told, AllAimed, Clear;
  }

  lemma PatchedSpots(arm: bool, v: Second, c: Cmd)
    requires c.AddPointer? && Placed(v.tracker, c) && InPointee(v.tracker, c)
    ensures SameSpots(v.tracker, v.tracker) && SameSpots(v.tracker, PatchedTracker(arm, v, c))
  {
    PatchedIs(arm, v, c);
  }

  lemma SameSpotsSelf(t: Tracker)
    ensures SameSpots(t, t)
  {
  }

  lemma StepAsserts(w: World, c: Cmd, restricted: set<Mem>, r: Reply)
    ensures StepStatus(w, c, restricted, r) != Asserted
  {
  }

  ghost function KeptSpans(t: Tracker): set<Span> {
    set k | k in t && !t[k].tableOnly :: SpanOf(t[k])
  }

  lemma SendableUpTo(f: Files, t: Tracker, s: Script, m: nat, n: nat)
    requires m <= n <= |s| && AllSendable(f, t, s, n)
    ensures AllSendable(f, t, s, m)
  {
  }

  /** Undoing up to the last successful WRITE_POINTER undoes them all and nothing else. */
  lemma RevokedAll(f0: Files, f1: Files, f2: Files, s: Script, end: nat, n: nat)
    requires n <= |s| && SubsetEnd(s, end, n)
    requires Rest(f0, f1, s, n) && Revoked(f1, f2, s, end)
    ensures Revoked(f0, f2, s, n)
  {
    forall k, x
      ensures Covered(s, end, k, x) <==> Covered(s, n, k, x)
    {
      if Covered(s, n, k, x) {
        var i :| 0 <= i < n && Covers(s[i], k, x);
        assert i < end;
      }
    }
  }

  /** Freeing all blobs restores the allocations; freeing some leaves the others. */
  lemma FreedIs(live0: set<Span>, live: set<Span>, t: Tracker, u: Tracker)
    requires Owned(live0, live, t) && SameSpots(t, u)
    ensures live - FreedSpans(u, true) == live0
    ensures live - FreedSpans(u, false) == live0 + KeptSpans(u)
  {
    hide PagesFor, Apart;
    SpansKept(t, u);
    assert FreedSpans(u, true) == Spans(u);
    assert forall k, l :: k in u && l in u && SpanOf(u[k]) == SpanOf(u[l]) ==> k == l by {
      forall k, l | k in u && l in u && SpanOf(u[k]) == SpanOf(u[l])
        ensures k == l
      {
        assert SpanOf(u[k]) == SpanOf(t[k]) && SpanOf(u[l]) == SpanOf(t[l]);
      }
    }
    assert Spans(u) == FreedSpans(u, false) + KeptSpans(u);
    assert FreedSpans(u, false) !! KeptSpans(u);
  }

  /** Some WRITE_POINTER in [from, to) covers the byte. */
  ghost predicate CoveredFrom(s: Script, from: nat, to: nat, f: Mem, x: int)
    requires from <= to <= |s|
  {
    exists i :: from <= i < to && Covers(s[i], f, x)
  }

  ghost function FreedSpans(t: Tracker, all: bool): set<Span> {
    set k | k in t && (all || t[k].tableOnly) :: SpanOf(t[k])
  }

  /** The spans freed once only the blobs of `rest` are left. */
  ghost function FreedExcept(t: Tracker, rest: set<Mem>, all: bool): set<Span> {
    set k | k in t && k !in rest && (all || t[k].tableOnly) :: SpanOf(t[k])
  }

  lemma FreedNoneAll(t: Tracker, all: bool)
    ensures FreedExcept(t, t.Keys, all) == {} && FreedExcept(t, {}, all) == FreedSpans(t, all)
  {
  }

  lemma FreedOneMore(t: Tracker, rest: set<Mem>, k: Mem, all: bool)
    requires k in t && k in rest
    ensures FreedExcept(t, rest - {k}, all)
         == FreedExcept(t, rest, all) + if all || t[k].tableOnly then {SpanOf(t[k])} else {}
  {
    hide SpanOf;
  }

  lemma StepOn(z: LoaderSecondPass.Run, n: nat)
    requires n < |z.script| && Ready(z) && Reaches(z, n)
    requires Placed(StateAt(z, n).tracker, z.script[n])
    requires z.script[n].AddPointer? ==> VisitStatus(StateAt(z, n), z.script[n], z.env(n)) == Success
    ensures Reaches(z, n + 1)
    ensures StateAt(z, n + 1) == if z.script[n].AddPointer?
                                 then VisitNext(z.arm, StateAt(z, n), z.script[n], z.env(n)) else StateAt(z, n)
  {
    hide VisitNext, VisitStatus;
  }

  lemma Ends(w0: World, s: Script, restricted: set<Mem>, env: nat -> Reply, n: nat)
    requires n <= |s| && w0.tracker == map[] && First(w0, s, restricted, env, n).Some?
    ensures Expressible(First(w0, s, restricted, env, n).value.tracker)
  {
    hide StepStatus, Next, First;
    FirstPassEstablishes(w0, s, restricted, env, n);
  }
}

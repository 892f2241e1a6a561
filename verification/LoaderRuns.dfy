/** What a whole run of the linker/loader guarantees. */
module LoaderRuns {
  import opened Bytes
  import opened LoaderScript
  import opened LoaderFirstPass
  import opened LoaderSecondPass
  import opened Loader

  /** The first pass of a run has completed. */
  ghost predicate Passed(w0: World, s: Script, env: nat -> Reply) {
    w0.tracker == map[] && FirstEnd(w0, s, env).Some?
  }

  ghost function SecondOf(arm: bool, w0: World, acpi0: map<nat, Mem>, s: Script, env: nat -> Reply): (z: LoaderSecondPass.Run)
    requires Passed(w0, s, env)
    ensures Ready(z) && z.start.tracker == FirstEnd(w0, s, env).value.tracker && z.script == s
  {
    FirstPassEstablishes(w0, s, NarrowPointees(s, |s|), env, |s|);
    SecondRun(arm, FirstEnd(w0, s, env).value.tracker, acpi0, s, env)
  }

  /** No write reaches a pointer field once it has been relocated. */
  ghost predicate Unspoilt(arm: bool, w0: World, acpi0: map<nat, Mem>, s: Script, env: nat -> Reply)
    requires Passed(w0, s, env)
  {
    Clear(s) && Undisturbed(SecondOf(arm, w0, acpi0, s, env))
  }

  lemma AllFieldsAimed(w0: World, s: Script, env: nat -> Reply)
    requires Passed(w0, s, env) && Clear(s)
    ensures AllAimed(FirstEnd(w0, s, env).value.tracker, s, |s|)
  {
    hide First, AllAimed, Clear;
    FirstPassEstablishes(w0, s, NarrowPointees(s, |s|), env, |s|);
  }

  /** What is left of the first pass: a field that the second pass reaches points outside its pointee. */
  ghost predicate MissesAt(z: LoaderSecondPass.Run, n: nat)
    requires n < |z.script| && Ready(z)
  {
    Reaches(z, n) && z.script[n].AddPointer? && !Aimed(z.start.tracker, z.script[n])
  }

  /** While no patch disturbs the fields, the ASSERTs test what the first pass left in the field. */
  lemma StuckIffMisses(z: LoaderSecondPass.Run, n: nat)
    requires n < |z.script| && Ready(z) && Undisturbed(z)
    ensures StuckAt(z, n) <==> MissesAt(z, n)
  {
    hide Undisturbed, After, Target;
    if Reaches(z, n) && z.script[n].AddPointer? {
      FieldsIntact(z, n);
    }
  }

  /** When no patch disturbs the fields, the second pass stops in an ASSERT exactly if some field misses. */
  lemma UndisturbedHaltsIff(arm: bool, w0: World, acpi0: map<nat, Mem>, s: Script, env: nat -> Reply)
    requires Passed(w0, s, env) && Undisturbed(SecondOf(arm, w0, acpi0, s, env))
    ensures Halts(arm, w0, acpi0, s, env)
            <==> exists n :: 0 <= n < |s| && MissesAt(SecondOf(arm, w0, acpi0, s, env), n)
  {
    hide First, Undisturbed, StuckAt, MissesAt;
    var z := SecondOf(arm, w0, acpi0, s, env);
    forall n | 0 <= n < |s|
      ensures StuckAt(z, n) <==> MissesAt(z, n)
    {
      StuckIffMisses(z, n);
    }
  }

  /** On AArch64, no FADT lies where patching it would change a field followed later; elsewhere nothing is patched. */
  ghost predicate PatchesSpare(arm: bool, w0: World, s: Script, env: nat -> Reply)
    requires Passed(w0, s, env)
  {
    arm ==> FadtsSpare(FirstEnd(w0, s, env).value.tracker, s)
  }

  lemma SparedUndisturbed(arm: bool, w0: World, acpi0: map<nat, Mem>, s: Script, env: nat -> Reply)
    requires Passed(w0, s, env) && PatchesSpare(arm, w0, s, env)
    ensures Undisturbed(SecondOf(arm, w0, acpi0, s, env))
  {
    hide First, FadtsSpare, Undisturbed;
    var z := SecondOf(arm, w0, acpi0, s, env);
    if arm {
      FadtsSpareUndisturbed(z);
    } else {
      OnlyArmDisturbs(z);
    }
  }

  /**
   When the second pass stops in an ASSERT: exactly if some field that it gets to was left pointing
   outside its pointee by the first pass. Both that and the condition on AArch64 are tests on the
   tracker between the passes, before anything is installed.
   */
  lemma HaltsIff(arm: bool, w0: World, acpi0: map<nat, Mem>, s: Script, env: nat -> Reply)
    requires Passed(w0, s, env) && PatchesSpare(arm, w0, s, env)
    ensures Halts(arm, w0, acpi0, s, env)
            <==> exists n :: 0 <= n < |s| && MissesAt(SecondOf(arm, w0, acpi0, s, env), n)
  {
    hide First, Undisturbed, PatchesSpare, MissesAt, Halts;
    SparedUndisturbed(arm, w0, acpi0, s, env);
    UndisturbedHaltsIff(arm, w0, acpi0, s, env);
  }

  /** Neither ASSERT of the second pass can fail when no write overlaps a relocated field. */
  lemma NeverHalts(arm: bool, w0: World, acpi0: map<nat, Mem>, s: Script, env: nat -> Reply)
    requires Passed(w0, s, env) && Unspoilt(arm, w0, acpi0, s, env)
    ensures !Halts(arm, w0, acpi0, s, env)
  {
    hide First, Clear, Undisturbed, Reaches, Aimed;
    AllFieldsAimed(w0, s, env);
    UndisturbedHaltsIff(arm, w0, acpi0, s, env);
  }

  /**
   No ASSERT fails for a script whose commands do not write into the fields of earlier ones. That
   is a condition on the script alone, except that AArch64 needs the test between the passes too.
   */
  lemma ClearNeverHalts(arm: bool, w0: World, acpi0: map<nat, Mem>, s: Script, env: nat -> Reply)
    requires Passed(w0, s, env) && Clear(s) && PatchesSpare(arm, w0, s, env)
    ensures !Halts(arm, w0, acpi0, s, env)
  {
    hide First, Clear, Undisturbed, Halts, PatchesSpare;
    SparedUndisturbed(arm, w0, acpi0, s, env);
    NeverHalts(arm, w0, acpi0, s, env);
  }

  lemma PassedFacts(w0: World, s: Script, env: nat -> Reply)
    requires Passed(w0, s, env)
    ensures var w := FirstEnd(w0, s, env).value;
            Owned(w0.live, w.live, w.tracker) && Flags(w.tracker, s, |s|) && Told(w.files, w.tracker, s, |s|)
  {
    hide First, Owned, Flags, Told, Low, Rest, AllPlaced, AllSendable, AllAimed, Clear;
    FirstPassEstablishes(w0, s, NarrowPointees(s, |s|), env, |s|);
  }

  /** A blob's pages survive exactly when the second pass leaves its flag cleared. */
  lemma KeptIff(live0: set<Span>, live: set<Span>, t: Tracker, u: Tracker, k: Mem)
    requires Owned(live0, live, t) && SameSpots(t, u) && k in t
    ensures SpanOf(t[k]) in live0 + KeptSpans(u) <==> !u[k].tableOnly
  {
    hide PagesFor, Apart;
    assert SpanOf(t[k]) in Spans(t);
    assert SpanOf(u[k]) == SpanOf(t[k]);
    assert !u[k].tableOnly ==> SpanOf(u[k]) in KeptSpans(u);
    if SpanOf(t[k]) in KeptSpans(u) {
      var l :| l in u && !u[l].tableOnly && SpanOf(u[l]) == SpanOf(t[k]);
      assert SpanOf(t[l]) == SpanOf(u[l]);
      assert l == k;
    }
  }

  /**
   After a successful run a blob's pages survive exactly when its address was sent to the host, or
   something other than a table was found in it. Nothing else stays allocated or is freed.
   */
  lemma Retained(arm: bool, w0: World, acpi0: map<nat, Mem>, s: Script, env: nat -> Reply,
                 files: Files, live: set<Span>, acpi: map<nat, Mem>, k: Mem)
    requires Passed(w0, s, env)
    requires Finished(arm, w0, acpi0, s, env, files, live, acpi)
    requires k in FirstEnd(w0, s, env).value.tracker
    ensures SpanOf(FirstEnd(w0, s, env).value.tracker[k]) in live
            <==> ToldOf(s, |s|, k) || HostsOther(SecondOf(arm, w0, acpi0, s, env), |s|, k)
  {
    hide First, Owned, Told, KeptSpans, HostsOther, ToldOf, SameSpots;
    var z, w := SecondOf(arm, w0, acpi0, s, env), FirstEnd(w0, s, env).value;
    PassedFacts(w0, s, env);
    Retention(z, |s|);
    KeptIff(w0.live, w.live, w.tracker, StateAt(z, |s|).tracker, k);
  }

  /** The second pass never makes a blob releasable again. */
  lemma {:induction false} FlagsFall(z: LoaderSecondPass.Run, n: nat, k: Mem)
    requires n <= |z.script| && Ready(z) && Reaches(z, n) && k in z.start.tracker
    ensures k in StateAt(z, n).tracker
    ensures StateAt(z, n).tracker[k].tableOnly ==> z.start.tracker[k].tableOnly
  {
    hide After, Recognise, NewTable, PatchedData, VisitStatus;
    if n == 0 {
      Begin(z);
    } else {
      StepAt(z, n - 1);
      FlagsFall(z, n - 1, k);
    }
  }

  /** An address inside a page allocation. */
  ghost predicate Backed(live: set<Span>, a: nat) {
    exists p :: p in live && p.0 <= a < p.0 + p.1 * PAGE_SIZE
  }

  /**
   After a successful run the host holds, at every destination that no later WRITE_POINTER
   overwrites, an address inside memory that stays allocated.
   */
  lemma HostAddressesSurvive(arm: bool, w0: World, acpi0: map<nat, Mem>, s: Script, env: nat -> Reply,
                             files: Files, live: set<Span>, acpi: map<nat, Mem>, i: nat)
    requires Passed(w0, s, env) && Finished(arm, w0, acpi0, s, env, files, live, acpi)
    requires i < |s| && Last(s, |s|, i)
    ensures Holds(files, FirstEnd(w0, s, env).value.tracker, s[i])
    ensures Backed(live, Field(files[Key(s[i].pointerFile)], s[i].offset, s[i].size))
  {
    hide First, Owned, KeptSpans, SameSpots, Field;
    var z, w := SecondOf(arm, w0, acpi0, s, env), FirstEnd(w0, s, env).value;
    var q := Key(s[i].pointeeFile);
    PassedFacts(w0, s, env);
    assert Holds(w.files, w.tracker, s[i]);
    assert ToldOf(s, |s|, q);
    FlagsFall(z, |s|, q);
    KeptIff(w0.live, w.live, w.tracker, StateAt(z, |s|).tracker, q);
    assert SpanOf(w.tracker[q]) in live;
  }

  /**
   After a successful run the firmware's tables are those from before and, copied from the blobs in
   first-visit order, the targets recognised as tables other than RSDT and XSDT.
   */
  lemma InstalledTables(arm: bool, w0: World, acpi0: map<nat, Mem>, s: Script, env: nat -> Reply,
                        files: Files, live: set<Span>, acpi: map<nat, Mem>)
    returns (tables: seq<Installed>, at: seq<nat>)
    requires Passed(w0, s, env)
    requires Finished(arm, w0, acpi0, s, env, files, live, acpi)
    ensures Registered(acpi0, acpi, tables)
    ensures |tables| <= MAX_TABLES
    ensures forall j, k :: 0 <= j < k < |tables| ==> tables[j].address != tables[k].address
    ensures forall j :: 0 <= j < |tables| ==> GoodBytes(arm, tables[j].bytes, tables[j].facs)
    ensures Chosen(SecondOf(arm, w0, acpi0, s, env), at, |s|)
    ensures InOrder(SecondOf(arm, w0, acpi0, s, env), tables, at, |s|)
  {
    hide First, Registered, GoodBytes, Chosen, InOrder;
    var z := SecondOf(arm, w0, acpi0, s, env);
    tables := StateAt(z, |s|).tables;
    TablesAreRegistered(z, |s|);
    TablesAreGood(z, |s|);
    at := InstallOrder(z, |s|);
  }

  // ----- the condition is needed -----

  const NAME_A: FileName := [65] + Zeros(NAME_SIZE - 1)
  const KEY_A: Mem := [65]

  /** The blob points into itself; a checksum is then stored in the pointer's second byte. */
  const SPOILER: Script := [Allocate(NAME_A, 1), AddPointer(NAME_A, NAME_A, 0, 8), AddChecksum(NAME_A, 1, 0, 0)]

  function SpoilerFiles(): Files {
    map[KEY_A := Zeros(8), LOADER_FILE := PackedScript(SPOILER)]
  }

  /** The files hold the script, packed as the host packs it. */
  lemma SpoilerIsScript()
    ensures HasScript(SpoilerFiles()) && Commands(SpoilerFiles()) == SPOILER
    ensures KEY_A in SpoilerFiles() && SpoilerFiles()[KEY_A] == Zeros(8)
  {
    hide Packed, Entries;
    EntriesOfPacked(SPOILER);
  }

  const WILLING: Reply := Reply(true, Some(PAGE_SIZE), true, true, true, Some(0))

  const ALWAYS_WILLING: nat -> Reply := _ => WILLING

  lemma KeyOfNameA()
    ensures Key(NAME_A) == KEY_A && Terminated(NAME_A)
  {
    assert NAME_A[1..][0] == 0;
    assert Key(NAME_A[1..]) == [];
  }

  lemma {:induction false} LeZeros(n: nat)
    ensures Le(Zeros(n)) == 0 && ToLe(0, n) == Zeros(n)
  {
    if n > 0 {
      LeZeros(n - 1);
      assert Zeros(n)[1..] == Zeros(n - 1);
    }
  }

  lemma PageAsBytes()
    ensures ToLe(PAGE_SIZE, 8) == [0, 16] + Zeros(6)
  {
    LeZeros(6);
    assert ToLe(PAGE_SIZE, 8) == [0] + ToLe(16, 7);
    assert ToLe(16, 7) == [16] + ToLe(0, 6);
  }

  /** The blob before and after its pointer field is relocated. */
  const BEFORE: Tracker := map[KEY_A := Blob(PAGE_SIZE, Zeros(8), true)]
  const RELOCATED: Tracker := map[KEY_A := Blob(PAGE_SIZE, [0, 16] + Zeros(6), true)]

  lemma SpoilerAllocates(restricted: set<Mem>)
    ensures var w0 := World(SpoilerFiles(), {}, map[]);
            && AllocateStatus(w0, SPOILER[0], restricted, WILLING) == Success
            && Allocated(w0, SPOILER[0], restricted, WILLING).tracker == BEFORE
  {
    hide PackedScript, SpoilerFiles;
    KeyOfNameA();
    SpoilerIsScript();
  }

  lemma SpoilerTarget()
    ensures Placed(BEFORE, SPOILER[1]) && Target(BEFORE, SPOILER[1]) == 0
  {
    KeyOfNameA();
    LeZeros(8);
    assert Zeros(8)[0..8] == Zeros(8);
  }

  lemma SpoilerRelocates()
    ensures Placed(BEFORE, SPOILER[1]) && Target(BEFORE, SPOILER[1]) == 0
    ensures PointerStatus(BEFORE, SPOILER[1]) == Success && Relocated(BEFORE, SPOILER[1]) == RELOCATED
  {
    hide Target, Le, Pow256;
    KeyOfNameA();
    SpoilerTarget();
    PageAsBytes();
    assert Write(Zeros(8), 0, [0, 16] + Zeros(6)) == [0, 16] + Zeros(6);
  }

  lemma SpoilerSpoils()
    ensures ChecksumStatus(RELOCATED, SPOILER[2]) == Success && Checksummed(RELOCATED, SPOILER[2]) == BEFORE
  {
    KeyOfNameA();
    assert ([0, 16] + Zeros(6))[1 := 0] == Zeros(8);
  }

  /**
   Without the condition the second pass can stop in an ASSERT although every command of the first
   pass succeeds: a checksum written over a relocated pointer field turns it into an address below
   its pointee.
   */
  lemma OverlapHalts(arm: bool)
    ensures Halts(arm, World(SpoilerFiles(), {}, map[]), map[], SPOILER, ALWAYS_WILLING)
    ensures !Clear(SPOILER)
  {
    hide AllocateStatus, PointerStatus, ChecksumStatus, Allocated, Relocated, Checksummed, Target, Key, SpoilerFiles;
    var env := ALWAYS_WILLING;
    var restricted := NarrowPointees(SPOILER, |SPOILER|);
    var w0 := World(SpoilerFiles(), {}, map[]);
    SpoilerAllocates(restricted);
    SpoilerRelocates();
    SpoilerSpoils();
    assert env(0) == WILLING && env(1) == WILLING && env(2) == WILLING;
    assert First(w0, SPOILER, restricted, env, 0) == Some(w0);
    var w1 := Allocated(w0, SPOILER[0], restricted, WILLING);
    assert First(w0, SPOILER, restricted, env, 1) == Some(w1);
    var w2 := w1.(tracker := Relocated(w1.tracker, SPOILER[1]));
    assert First(w0, SPOILER, restricted, env, 2) == Some(w2);
    assert FirstEnd(w0, SPOILER, env).Some?;
    var t := FirstEnd(w0, SPOILER, env).value.tracker;
    assert t == BEFORE;
    var z := SecondRun(arm, t, map[], SPOILER, env);
    Begin(z);
    assert After(z.arm, z.start, z.script, z.env, 1) == Some(z.start);
    assert Placed(StateAt(z, 1).tracker, SPOILER[1]) && !InPointee(StateAt(z, 1).tracker, SPOILER[1]) by {
      KeyOfNameA();
    }
    assert StuckAt(z, 1);
    assert Touches(SPOILER[2], SPOILER[1]);
  }

  /** So the installation itself stops there, on files that hold this script. */
  method OverlapAsserts(arm: bool) returns (status: Status)
    ensures status == Asserted
  {
    hide Halts, Completes, Finished, First, Revoked, Entries;
    var fw := new Firmware(arm, SpoilerFiles(), {}, map[]);
    SpoilerIsScript();
    OverlapHalts(arm);
    assert Provided(SPOILER, ALWAYS_WILLING, Setup(true, true, true, true, true));
    var done;
    status, done := fw.InstallQemuFwCfgTables(ALWAYS_WILLING, Setup(true, true, true, true, true));
  }
}

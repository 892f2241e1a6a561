/** What counts as an ACPI table for the linker/loader, and that every such table is installed. */
module LoaderTables {
  import opened Bytes
  import opened Acpi
  import opened LoaderScript
  import opened LoaderFirstPass
  import opened LoaderSecondPass
  import opened Loader
  import opened LoaderRuns

  /** The bytes of a FACS: its signature, and a length of at least 64 that is theirs. */
  predicate IsFacs(x: Mem) {
    |x| >= 64 && x[..4] == [0x46, 0x41, 0x43, 0x53] && Le(x[4..8]) == |x|
  }

  /** The bytes of any other table: a header with their length, and a sum of 0. */
  predicate IsTable(x: Mem) {
    |x| >= 36 && Le(x[4..8]) == |x| && Sum(x, 0, |x|) % 256 == 0 && !IsFacs(x)
  }

  predicate IsRoot(x: Mem) {
    IsTable(x) && (x[..4] == [0x52, 0x53, 0x44, 0x54] || x[..4] == [0x58, 0x53, 0x44, 0x54])
  }

  lemma SliceFields(m: Mem, o: nat, n: nat)
    requires o + n <= |m| && 36 <= n
    ensures U32(m, o + 4) == Le(m[o..o + n][4..8]) && m[o..o + 4] == m[o..o + n][..4]
    ensures Sum(m[o..o + n], 0, n) == Sum(m, o, o + n)
  {
    var x := m[o..o + n];
    var y, w := x[4..8], m[o + 4..o + 4 + 4];
    forall k | 0 <= k < 4
      ensures y[k] == w[k]
    {
      assert y[k] == x[4 + k] && w[k] == m[o + 4 + k] && x[4 + k] == m[o + (4 + k)];
    }
    assert y == w;
    assert x[..4] == m[o..o + 4];
    SumSlice(m, o, n, 0);
  }

  /** The kind recognised at a place is that of the bytes their length field delimits there. */
  lemma RecogniseIff(m: Mem, o: nat, n: nat)
    requires o + n <= |m|
    ensures Recognise(m, o) == Facs(n) <==> IsFacs(m[o..o + n])
    ensures Recognise(m, o) == Table(n) <==> IsTable(m[o..o + n]) && !IsRoot(m[o..o + n])
    ensures IsRoot(m[o..o + n]) ==> Recognise(m, o) == RootTable
  {
    hide Le, Sum;
    if 36 <= n {
      SliceFields(m, o, n);
    }
    var left := |m| - o;
    if 36 <= left && 36 <= U32(m, o + 4) <= left {
      SliceFields(m, o, U32(m, o + 4));
    }
  }

  predicate RootAt(m: Mem, o: nat, n: nat) {
    o + n <= |m| && IsRoot(m[o..o + n])
  }

  predicate TableAt(m: Mem, o: nat, n: nat) {
    o + n <= |m| && (IsFacs(m[o..o + n]) || IsTable(m[o..o + n]))
  }

  /** Root tables are recognised only where one starts, and nothing is exactly where nothing starts. */
  lemma RecogniseElse(m: Mem, o: nat)
    requires o <= |m|
    ensures Recognise(m, o) == RootTable <==> exists n: nat :: RootAt(m, o, n)
    ensures Recognise(m, o) == Opaque <==> forall n: nat :: !TableAt(m, o, n)
  {
    hide Le, Sum, Recognise, IsFacs, IsTable, IsRoot;
    forall n: nat
      ensures RootAt(m, o, n) ==> Recognise(m, o) == RootTable
    {
      if RootAt(m, o, n) { RecogniseIff(m, o, n); }
    }
    forall n: nat
      ensures TableAt(m, o, n) ==> Recognise(m, o) != Opaque
    {
      if TableAt(m, o, n) { RecogniseIff(m, o, n); }
    }
    KindHasBytes(m, o);
  }

  /** Whatever is recognised, its bytes are there. */
  lemma KindHasBytes(m: Mem, o: nat)
    requires o <= |m|
    ensures Recognise(m, o) == RootTable ==> exists n: nat :: RootAt(m, o, n)
    ensures Recognise(m, o) != Opaque ==> exists n: nat :: TableAt(m, o, n)
  {
    hide Le, Sum;
    if Recognise(m, o) != Opaque {
      var n := U32(m, o + 4);
      SliceFields(m, o, n);
      assert TableAt(m, o, n);
      assert Recognise(m, o) == RootTable ==> RootAt(m, o, n);
    }
  }

  /** A table among any other bytes is recognised with its own length. */
  lemma TableIsRecognised(pre: Mem, x: Mem, post: Mem)
    requires IsFacs(x) || IsTable(x)
    ensures Recognise(pre + x + post, |pre|)
         == if IsFacs(x) then Facs(|x|) else if IsRoot(x) then RootTable else Table(|x|)
  {
    hide Recognise, IsFacs, IsTable, IsRoot;
    var m := pre + x + post;
    assert m[|pre|..|pre| + |x|] == x;
    RecogniseIff(m, |pre|, |x|);
    FacsIsNoTable(x);
  }

  lemma FacsIsNoTable(x: Mem)
    ensures !(IsFacs(x) && IsTable(x)) && (IsRoot(x) ==> IsTable(x))
  {
  }

  /** The first visit of its target finds the bytes `x` at the place where the field of command `i` points. */
  ghost predicate FirstFinds(z: LoaderSecondPass.Run, i: nat, x: Mem)
    requires i < |z.script| && Ready(z)
  {
    && Fresh(z, i)
    && var t, c := StateAt(z, i).tracker, z.script[i];
       && Placed(t, c) && InPointee(t, c)
       && var m, o := t[Key(c.pointeeFile)].data, Offset(t, c);
          o + |x| <= |m| && m[o..o + |x|] == x
  }

  lemma FoundIsSelected(z: LoaderSecondPass.Run, i: nat, x: Mem)
    requires i < |z.script| && Ready(z) && FirstFinds(z, i, x)
    requires IsFacs(x) || (IsTable(x) && !IsRoot(x))
    ensures Selected(z, i)
    ensures KindAt(StateAt(z, i).tracker, z.script[i]) == if IsFacs(x) then Facs(|x|) else Table(|x|)
  {
    hide Recognise, IsFacs, IsTable, IsRoot, Target, After;
    var t, c := StateAt(z, i).tracker, z.script[i];
    RecogniseIff(t[Key(c.pointeeFile)].data, Offset(t, c), |x|);
    FacsIsNoTable(x);
    assert Sees(z, i, KindAt(t, c));
  }

  lemma LongEnough(x: Mem)
    requires IsFacs(x) || IsTable(x)
    ensures 4 <= |x|
  {
  }

  /** What was copied is what was found, but for the FADT patch. */
  lemma CopyIsFound(z: LoaderSecondPass.Run, i: nat, x: Mem, y: Installed)
    requires i < |z.script| && Ready(z) && FirstFinds(z, i, x) && CopyOf(z, i, y)
    requires KindAt(StateAt(z, i).tracker, z.script[i]).size == |x| && 4 <= |x|
    ensures |y.bytes| == |x| && (!z.arm || x[..4] != FADT_SIGNATURE ==> y.bytes == x)
  {
    hide Recognise, Target, After, Fresh, KindAt, Patch;
    var t, c := StateAt(z, i).tracker, z.script[i];
    var m, o := t[Key(c.pointeeFile)].data, Offset(t, c);
    assert m[o..o + 4] == m[o..o + |x|][..4];
  }

  /** A registered table is in the set under its key. */
  lemma RegisteredKey(acpi0: map<nat, Mem>, acpi: map<nat, Mem>, tables: seq<Installed>, j: nat)
    requires Registered(acpi0, acpi, tables) && j < |tables|
    ensures tables[j].key !in acpi0 && tables[j].key in acpi && acpi[tables[j].key] == tables[j].bytes
  {
  }

  lemma ChosenPlace(z: LoaderSecondPass.Run, tables: seq<Installed>, at: seq<nat>, i: nat) returns (j: nat)
    requires i < |z.script| && Ready(z) && Chosen(z, at, |z.script|) && InOrder(z, tables, at, |z.script|) && Selected(z, i)
    ensures j < |tables| && CopyOf(z, i, tables[j])
  {
    hide Selected, CopyOf;
    j :| 0 <= j < |at| && at[j] == i;
  }

  /**
   After any success, every table other than RSDT and XSDT that a first visit finds has been installed,
   with its length and, but for the patch of an FADT on AArch64, byte for byte.
   */
  lemma EveryTableIsInstalled(arm: bool, w0: World, acpi0: map<nat, Mem>, s: Script, env: nat -> Reply,
                              files: Files, live: set<Span>, acpi: map<nat, Mem>, i: nat, x: Mem)
    returns (key: nat)
    requires Passed(w0, s, env) && Finished(arm, w0, acpi0, s, env, files, live, acpi)
    requires i < |s| && FirstFinds(SecondOf(arm, w0, acpi0, s, env), i, x)
    requires IsFacs(x) || (IsTable(x) && !IsRoot(x))
    ensures key !in acpi0 && key in acpi && |acpi[key]| == |x|
    ensures !arm || x[..4] != FADT_SIGNATURE ==> acpi[key] == x
  {
    hide First, IsFacs, IsTable, IsRoot, GoodBytes, Finished, Chosen, InOrder, Registered, CopyOf, Selected;
    var z := SecondOf(arm, w0, acpi0, s, env);
    var tables, at := InstalledTables(arm, w0, acpi0, s, env, files, live, acpi);
    FoundIsSelected(z, i, x);
    LongEnough(x);
    var j := ChosenPlace(z, tables, at, i);
    CopyIsFound(z, i, x, tables[j]);
    RegisteredKey(acpi0, acpi, tables, j);
    key := tables[j].key;
  }
}

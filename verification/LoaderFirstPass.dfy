/**
 What the first pass of the linker/loader establishes, for every script, every answer of the
 services, and every prefix of the script that succeeds.
 */
module LoaderFirstPass {
  import opened Bytes
  import opened LoaderScript

  // ----- what a successful prefix has established -----

  /** Blobs own disjoint allocations whose end address is expressible. */
  ghost predicate Owned(live0: set<Span>, live: set<Span>, t: Tracker) {
    && live == live0 + Spans(t)
    && live0 !! Spans(t)
    && (forall k :: k in t ==> t[k].base + PagesFor(|t[k].data|) * PAGE_SIZE < ADDRESS_SPACE)
    && (forall k, l :: k in t && l in t && k != l ==> SpanOf(t[k]) != SpanOf(t[l]) && Apart(SpanOf(t[k]), SpanOf(t[l])))
  }

  ghost function Spans(t: Tracker): set<Span> {
    set k | k in t :: SpanOf(t[k])
  }

  /** Restricted blobs lie wholly below 4 GiB. */
  ghost predicate Low(restricted: set<Mem>, t: Tracker) {
    forall k :: k in t && k in restricted ==> t[k].base + |t[k].data| <= FOUR_GIB
  }

  /** The relocated field points into its pointee. */
  ghost predicate Aimed(t: Tracker, c: Cmd) {
    c.AddPointer? ==>
      && Placed(t, c)
      && t[Key(c.pointeeFile)].base <= Target(t, c) < t[Key(c.pointeeFile)].base + |t[Key(c.pointeeFile)].data|
  }

  ghost predicate AllPlaced(t: Tracker, s: Script, n: nat)
    requires n <= |s|
  {
    forall i :: 0 <= i < n ==> Placed(t, s[i])
  }

  ghost predicate AllAimed(t: Tracker, s: Script, n: nat)
    requires n <= |s|
  {
    forall i :: 0 <= i < n ==> Aimed(t, s[i])
  }

  ghost predicate AllSendable(f: Files, t: Tracker, s: Script, n: nat)
    requires n <= |s|
  {
    forall i :: 0 <= i < n ==> Sendable(f, t, s[i])
  }

  /** Some WRITE_POINTER among the first `n` commands names blob `k` as its pointee. */
  ghost predicate ToldOf(s: Script, n: nat, k: Mem)
    requires n <= |s|
  {
    exists i :: 0 <= i < n && s[i].WritePointer? && Key(s[i].pointeeFile) == k
  }

  ghost predicate Flags(t: Tracker, s: Script, n: nat)
    requires n <= |s|
  {
    forall k :: k in t ==> (t[k].tableOnly <==> !ToldOf(s, n, k))
  }

  predicate Covers(c: Cmd, f: Mem, x: int) {
    c.WritePointer? && Key(c.pointerFile) == f && c.offset <= x < c.offset + c.size
  }

  /** Byte `x` of file `f` is the destination of a WRITE_POINTER among the first `n` commands. */
  ghost predicate Covered(s: Script, n: nat, f: Mem, x: int)
    requires n <= |s|
  {
    exists i :: 0 <= i < n && Covers(s[i], f, x)
  }

  /** The directory never changes, nor does any byte that no WRITE_POINTER names. */
  ghost predicate Rest(f0: Files, f: Files, s: Script, n: nat)
    requires n <= |s|
  {
    && f.Keys == f0.Keys
    && (forall k :: k in f ==> |f[k]| == |f0[k]|)
    && (forall k, x :: k in f && 0 <= x < |f[k]| && !Covered(s, n, k, x) ==> f[k][x] == f0[k][x])
  }

  /** The two WRITE_POINTER commands have no destination byte in common. */
  predicate Crossing(c: Cmd, d: Cmd) {
    && c.WritePointer? && d.WritePointer? && Key(c.pointerFile) == Key(d.pointerFile)
    && c.offset < d.offset + d.size && d.offset < c.offset + c.size
  }

  ghost predicate Last(s: Script, n: nat, i: nat)
    requires i < n <= |s|
  {
    s[i].WritePointer? && forall j :: i < j < n ==> !Crossing(s[i], s[j])
  }

  /** The host holds the address of the pointee plus the requested offset. */
  ghost predicate Holds(f: Files, t: Tracker, c: Cmd) {
    c.WritePointer? && Sendable(f, t, c) &&
    Field(f[Key(c.pointerFile)], c.offset, c.size) == t[Key(c.pointeeFile)].base + c.pointeeOffset
  }

  /** A destination that no later WRITE_POINTER overwrites holds the address it was sent. */
  ghost predicate Told(f: Files, t: Tracker, s: Script, n: nat)
    requires n <= |s|
  {
    forall i :: 0 <= i < n && Last(s, n, i) ==> Holds(f, t, s[i])
  }

  // ----- overlap of writes with relocated fields -----

  /** Command `d` writes into the pointer field of the ADD_POINTER `c`. */
  predicate Touches(d: Cmd, c: Cmd)
    requires c.AddPointer?
  {
    || (d.AddPointer? && Key(d.pointerFile) == Key(c.pointerFile)
        && d.offset < c.offset + c.size && c.offset < d.offset + d.size)
    || (d.AddChecksum? && Key(d.file) == Key(c.pointerFile) && c.offset <= d.result < c.offset + c.size)
  }

  /** No command writes into the field of an earlier ADD_POINTER. */
  ghost predicate Clear(s: Script) {
    forall i, j :: 0 <= i < j < |s| && s[i].AddPointer? ==> !Touches(s[j], s[i])
  }

  // ----- ADD_POINTER -----

  /** Same blobs at the same places, with the same flags. */
  ghost predicate SameShape(t: Tracker, u: Tracker) {
    && u.Keys == t.Keys
    && forall k :: k in t ==> u[k].base == t[k].base && |u[k].data| == |t[k].data| && u[k].tableOnly == t[k].tableOnly
  }

  /** The relocated field reads the address of what its offset meant; nothing else moves. */
  lemma RelocatedIs(t: Tracker, c: Cmd)
    requires c.AddPointer? && PointerStatus(t, c) == Success
    requires t[Key(c.pointeeFile)].base + |t[Key(c.pointeeFile)].data| <= ADDRESS_SPACE
    ensures SameShape(t, Relocated(t, c))
    ensures Aimed(Relocated(t, c), c)
    ensures Target(Relocated(t, c), c) == t[Key(c.pointeeFile)].base + Target(t, c)
    ensures forall k, x :: k in t && 0 <= x < |t[k].data| && !(k == Key(c.pointerFile) && c.offset <= x < c.offset + c.size)
              ==> Relocated(t, c)[k].data[x] == t[k].data[x]
  {
    var p := Key(c.pointerFile);
    var address := Target(t, c) + t[Key(c.pointeeFile)].base;
    var u := Relocated(t, c);
    Pow256Values();
    LeToLe(address, c.size);
    assert u[p].data[c.offset..c.offset + c.size] == ToLe(address, c.size);
  }

  lemma FieldFrame(m1: Mem, m2: Mem, offset: nat, size: nat)
    requires offset + size <= |m1| && offset + size <= |m2|
    requires forall x :: offset <= x < offset + size ==> m1[x] == m2[x]
    ensures Field(m1, offset, size) == Field(m2, offset, size)
  {
    assert m1[offset..offset + size] == m2[offset..offset + size];
  }

  /** Bytes outside the written range [lo, hi) of blob `p` are the same in both trackers. */
  ghost predicate Elsewhere(t: Tracker, u: Tracker, p: Mem, lo: int, hi: int) {
    && u.Keys == t.Keys
    && (forall k :: k in t ==> u[k].base == t[k].base && |u[k].data| == |t[k].data|)
    && (forall k, x :: k in t && 0 <= x < |t[k].data| && !(k == p && lo <= x < hi) ==> u[k].data[x] == t[k].data[x])
  }

  /** A field outside the written range keeps its value. */
  lemma AimKept(t: Tracker, u: Tracker, c: Cmd, p: Mem, lo: int, hi: int)
    requires Elsewhere(t, u, p, lo, hi)
    requires c.AddPointer? ==> Key(c.pointerFile) != p || c.offset + c.size <= lo || hi <= c.offset
    requires Placed(t, c)
    ensures Placed(u, c)
    ensures c.AddPointer? ==> Target(u, c) == Target(t, c)
    ensures Aimed(t, c) ==> Aimed(u, c)
  {
    if c.AddPointer? {
      FieldFrame(t[Key(c.pointerFile)].data, u[Key(c.pointerFile)].data, c.offset, c.size);
    }
  }

  lemma PlacedKept(t: Tracker, u: Tracker, c: Cmd)
    requires Placed(t, c)
    requires forall k :: k in t ==> k in u && |u[k].data| == |t[k].data|
    ensures Placed(u, c)
  {
  }

  // ----- ADD_CHECKSUM -----

  lemma ChecksummedIs(t: Tracker, c: Cmd)
    requires c.AddChecksum? && ChecksumStatus(t, c) == Success
    ensures SameShape(t, Checksummed(t, c))
    ensures Elsewhere(t, Checksummed(t, c), Key(c.file), c.result, c.result + 1)
  {
  }

  /** A checksum byte inside its own range, zero beforehand, makes the range sum to zero. */
  lemma ChecksumZeroes(t: Tracker, c: Cmd)
    requires c.AddChecksum? && ChecksumStatus(t, c) == Success
    requires c.start <= c.result < c.start + c.length && t[Key(c.file)].data[c.result] == 0
    ensures Sum(Checksummed(t, c)[Key(c.file)].data, c.start, c.start + c.length) % 256 == 0
  {
    var m := t[Key(c.file)].data;
    assert m[c.result := 0] == m;
    ChecksumFixes(m, c.start, c.start + c.length, c.result);
  }

  // ----- one command keeps what the earlier ones established -----

  /** Blobs stay where they are; only ALLOCATE adds one. */
  ghost predicate Grown(t: Tracker, u: Tracker) {
    forall k :: k in t ==> k in u && u[k].base == t[k].base && |u[k].data| == |t[k].data|
  }

  lemma NextShape(w: World, c: Cmd, restricted: set<Mem>, r: Reply)
    requires StepStatus(w, c, restricted, r) == Success
    ensures var v := Next(w, c, restricted, r);
            && Grown(w.tracker, v.tracker)
            && v.files.Keys == w.files.Keys && (forall k :: k in w.files ==> |v.files[k]| == |w.files[k]|)
            && (!c.WritePointer? ==> v.files == w.files)
            && (!c.Allocate? ==> v.tracker.Keys == w.tracker.Keys && v.live == w.live)
  {
  }

  lemma SpansKept(t: Tracker, u: Tracker)
    requires Grown(t, u) && u.Keys == t.Keys
    ensures Spans(u) == Spans(t)
  {
    forall k | k in t
      ensures SpanOf(u[k]) == SpanOf(t[k])
    {
    }
    assert forall p :: p in Spans(u) ==> p in Spans(t);
    assert forall p :: p in Spans(t) ==> p in Spans(u) by {
      forall p | p in Spans(t)
        ensures p in Spans(u)
      {
        var k :| k in t && SpanOf(t[k]) == p;
        assert SpanOf(u[k]) == p;
      }
    }
  }

  lemma SpansAdd(t: Tracker, k: Mem, b: Blob)
    requires k !in t
    ensures Spans(t[k := b]) == Spans(t) + {SpanOf(b)}
  {
    var u := t[k := b];
    forall q | q in Spans(t) + {SpanOf(b)}
      ensures q in Spans(u)
    {
      if q in Spans(t) {
        var l :| l in t && SpanOf(t[l]) == q;
        assert l in u && u[l] == t[l];
      } else {
        assert k in u && u[k] == b;
      }
    }
  }

  /** A blob in pages that AllocatePages may hand out. */
  lemma OwnedAdd(live0: set<Span>, live: set<Span>, t: Tracker, k: Mem, b: Blob, max: nat)
    requires k !in t && Fits(live, SpanOf(b), max)
    requires Owned(live0, live, t)
    ensures Owned(live0, live + {SpanOf(b)}, t[k := b])
  {
    hide PagesFor;
    SpansAdd(t, k, b);
    assert forall l :: l in t ==> SpanOf(t[l]) in Spans(t);
  }

  lemma OwnedAllocate(live0: set<Span>, w: World, c: Cmd, restricted: set<Mem>, r: Reply)
    requires c.Allocate? && AllocateStatus(w, c, restricted, r) == Success
    requires Owned(live0, w.live, w.tracker)
    ensures Owned(live0, Allocated(w, c, restricted, r).live, Allocated(w, c, restricted, r).tracker)
  {
    hide Owned, Fits;
    var k := Key(c.file);
    OwnedAdd(live0, w.live, w.tracker, k, Blob(r.base.value, w.files[k], true), MaxAddress(restricted, k));
  }

  lemma OwnedNext(live0: set<Span>, w: World, c: Cmd, restricted: set<Mem>, r: Reply)
    requires StepStatus(w, c, restricted, r) == Success
    requires Owned(live0, w.live, w.tracker)
    ensures Owned(live0, Next(w, c, restricted, r).live, Next(w, c, restricted, r).tracker)
  {
    if c.Allocate? {
      OwnedAllocate(live0, w, c, restricted, r);
    } else {
      OwnedElse(live0, w, c, restricted, r);
    }
  }

  lemma OwnedElse(live0: set<Span>, w: World, c: Cmd, restricted: set<Mem>, r: Reply)
    requires StepStatus(w, c, restricted, r) == Success && !c.Allocate?
    requires Owned(live0, w.live, w.tracker)
    ensures Owned(live0, Next(w, c, restricted, r).live, Next(w, c, restricted, r).tracker)
  {
    hide StepStatus, Next;
    NextShape(w, c, restricted, r);
    SpansKept(w.tracker, Next(w, c, restricted, r).tracker);
  }

  lemma LowNext(w: World, c: Cmd, restricted: set<Mem>, r: Reply)
    requires StepStatus(w, c, restricted, r) == Success
    requires Low(restricted, w.tracker)
    ensures Low(restricted, Next(w, c, restricted, r).tracker)
  {
    NextShape(w, c, restricted, r);
  }

  lemma PlacedNext(w: World, s: Script, n: nat, restricted: set<Mem>, r: Reply)
    requires n < |s| && StepStatus(w, s[n], restricted, r) == Success
    requires AllPlaced(w.tracker, s, n)
    ensures AllPlaced(Next(w, s[n], restricted, r).tracker, s, n + 1)
  {
    NextShape(w, s[n], restricted, r);
  }

  lemma SendableNext(w: World, s: Script, n: nat, restricted: set<Mem>, r: Reply)
    requires n < |s| && StepStatus(w, s[n], restricted, r) == Success
    requires AllSendable(w.files, w.tracker, s, n)
    ensures AllSendable(Next(w, s[n], restricted, r).files, Next(w, s[n], restricted, r).tracker, s, n + 1)
  {
    NextShape(w, s[n], restricted, r);
  }

  /** Where a command writes, an earlier pointer field is not. */
  lemma AimedNext(w: World, s: Script, n: nat, restricted: set<Mem>, r: Reply, i: nat)
    requires i < n < |s| && StepStatus(w, s[n], restricted, r) == Success
    requires Clear(s)
    requires Aimed(w.tracker, s[i])
    ensures Aimed(Next(w, s[n], restricted, r).tracker, s[i])
  {
    var c, v := s[n], Next(w, s[n], restricted, r);
    if s[i].AddPointer? {
      assert !Touches(c, s[i]);
      if c.AddPointer? {
        var p := Key(c.pointerFile);
        assert Elsewhere(w.tracker, v.tracker, p, c.offset, c.offset + c.size);
        AimKept(w.tracker, v.tracker, s[i], p, c.offset, c.offset + c.size);
      } else if c.AddChecksum? {
        ChecksummedIs(w.tracker, c);
        AimKept(w.tracker, v.tracker, s[i], Key(c.file), c.result, c.result + 1);
      }
    }
  }

  lemma AimsNext(live0: set<Span>, w: World, s: Script, n: nat, restricted: set<Mem>, r: Reply)
    requires n < |s| && StepStatus(w, s[n], restricted, r) == Success
    requires Clear(s) && AllAimed(w.tracker, s, n) && Owned(live0, w.live, w.tracker)
    ensures AllAimed(Next(w, s[n], restricted, r).tracker, s, n + 1)
  {
    var v := Next(w, s[n], restricted, r);
    forall i | 0 <= i < n
      ensures Aimed(v.tracker, s[i])
    {
      AimedNext(w, s, n, restricted, r, i);
    }
    if s[n].AddPointer? {
      RelocatedIs(w.tracker, s[n]);
    }
  }

  lemma ToldOfNext(s: Script, n: nat, k: Mem)
    requires n < |s|
    ensures ToldOf(s, n + 1, k) <==> ToldOf(s, n, k) || (s[n].WritePointer? && Key(s[n].pointeeFile) == k)
  {
  }

  lemma FlagsNext(w: World, s: Script, n: nat, restricted: set<Mem>, r: Reply)
    requires n < |s| && StepStatus(w, s[n], restricted, r) == Success
    requires Flags(w.tracker, s, n) && AllSendable(w.files, w.tracker, s, n)
    ensures Flags(Next(w, s[n], restricted, r).tracker, s, n + 1)
  {
    var v := Next(w, s[n], restricted, r);
    forall k | k in v.tracker
      ensures v.tracker[k].tableOnly <==> !ToldOf(s, n + 1, k)
    {
      ToldOfNext(s, n, k);
    }
  }

  lemma RestNext(f0: Files, w: World, s: Script, n: nat, restricted: set<Mem>, r: Reply)
    requires n < |s| && StepStatus(w, s[n], restricted, r) == Success
    requires Rest(f0, w.files, s, n)
    ensures Rest(f0, Next(w, s[n], restricted, r).files, s, n + 1)
  {
    var v := Next(w, s[n], restricted, r);
    forall k, x | k in v.files && 0 <= x < |v.files[k]| && !Covered(s, n + 1, k, x)
      ensures v.files[k][x] == f0[k][x]
    {
      assert !Covers(s[n], k, x);
      assert !Covered(s, n, k, x);
    }
  }

  lemma SentIs(live0: set<Span>, w: World, c: Cmd)
    requires c.WritePointer? && WriteStatus(w.files, w.tracker, c) == Success
    requires Owned(live0, w.live, w.tracker)
    ensures Holds(Sent(w, c).files, Sent(w, c).tracker, c)
  {
    var p, q := Key(c.pointerFile), Key(c.pointeeFile);
    var address := c.pointeeOffset + w.tracker[q].base;
    Pow256Values();
    LeToLe(address, c.size);
    assert Sent(w, c).files[p][c.offset..c.offset + c.size] == ToLe(address, c.size);
  }

  lemma HoldsNext(w: World, c: Cmd, restricted: set<Mem>, r: Reply, e: Cmd)
    requires StepStatus(w, c, restricted, r) == Success
    requires Holds(w.files, w.tracker, e) && !Crossing(e, c)
    ensures Holds(Next(w, c, restricted, r).files, Next(w, c, restricted, r).tracker, e)
  {
    var v := Next(w, c, restricted, r);
    var p := Key(e.pointerFile);
    NextShape(w, c, restricted, r);
    FieldFrame(w.files[p], v.files[p], e.offset, e.size);
  }

  lemma ToldNext(live0: set<Span>, w: World, s: Script, n: nat, restricted: set<Mem>, r: Reply)
    requires n < |s| && StepStatus(w, s[n], restricted, r) == Success
    requires Told(w.files, w.tracker, s, n) && Owned(live0, w.live, w.tracker)
    ensures Told(Next(w, s[n], restricted, r).files, Next(w, s[n], restricted, r).tracker, s, n + 1)
  {
    var v := Next(w, s[n], restricted, r);
    forall i | 0 <= i < n + 1 && Last(s, n + 1, i)
      ensures Holds(v.files, v.tracker, s[i])
    {
      if i == n {
        SentIs(live0, w, s[n]);
      } else {
        assert Last(s, n, i);
        HoldsNext(w, s[n], restricted, r, s[i]);
      }
    }
  }

  // ----- every prefix -----

  /** Everything the first `n` commands have established. */
  ghost predicate Established(w0: World, w: World, s: Script, restricted: set<Mem>, n: nat)
    requires n <= |s|
  {
    && Owned(w0.live, w.live, w.tracker)
    && Low(restricted, w.tracker)
    && AllPlaced(w.tracker, s, n)
    && AllSendable(w.files, w.tracker, s, n)
    && Flags(w.tracker, s, n)
    && Rest(w0.files, w.files, s, n)
    && Told(w.files, w.tracker, s, n)
    && (Clear(s) ==> AllAimed(w.tracker, s, n))
  }

  lemma EstablishedNext(w0: World, w: World, s: Script, restricted: set<Mem>, r: Reply, n: nat)
    requires n < |s| && StepStatus(w, s[n], restricted, r) == Success
    requires Established(w0, w, s, restricted, n)
    ensures Established(w0, Next(w, s[n], restricted, r), s, restricted, n + 1)
  {
    hide StepStatus, Next, Owned, Low, AllPlaced, AllSendable, Flags, Rest, Told, AllAimed, Clear;
    OwnedNext(w0.live, w, s[n], restricted, r);
    LowNext(w, s[n], restricted, r);
    PlacedNext(w, s, n, restricted, r);
    SendableNext(w, s, n, restricted, r);
    FlagsNext(w, s, n, restricted, r);
    RestNext(w0.files, w, s, n, restricted, r);
    ToldNext(w0.live, w, s, n, restricted, r);
    if Clear(s) {
      AimsNext(w0.live, w, s, n, restricted, r);
    }
  }

  lemma EstablishedStart(w: World, s: Script, restricted: set<Mem>)
    requires w.tracker == map[]
    ensures Established(w, w, s, restricted, 0)
  {
    hide Clear;
  }

  /** For every script, every environment and every prefix that succeeds. */
  lemma {:induction false} FirstPassEstablishes(w0: World, s: Script, restricted: set<Mem>, env: nat -> Reply, n: nat)
    requires n <= |s| && w0.tracker == map[]
    requires First(w0, s, restricted, env, n).Some?
    ensures Established(w0, First(w0, s, restricted, env, n).value, s, restricted, n)
  {
    hide StepStatus, Next, Established;
    if n == 0 {
      EstablishedStart(w0, s, restricted);
    } else {
      FirstPassEstablishes(w0, s, restricted, env, n - 1);
      EstablishedNext(w0, First(w0, s, restricted, env, n - 1).value, s, restricted, env(n - 1), n - 1);
    }
  }

  // ----- the pre-scan -----

  lemma FourByteFits(restricted: set<Mem>, t: Tracker, c: Cmd)
    requires c.AddPointer? && c.size == 4 && Key(c.pointeeFile) in restricted
    requires Low(restricted, t)
    ensures PointerStatus(t, c) != ProtocolError(Unrepresentable)
  {
    Pow256Values();
  }

  /**
   The pre-scan suffices: whatever ran before it, a 4-byte ADD_POINTER is never rejected as
   unrepresentable. Of the narrow pointers, only 1- and 2-byte ones can be.
   */
  lemma PrescanSuffices(w0: World, s: Script, env: nat -> Reply, n: nat)
    requires n < |s| && w0.tracker == map[]
    requires First(w0, s, NarrowPointees(s, |s|), env, n).Some?
    requires s[n].AddPointer?
    requires PointerStatus(First(w0, s, NarrowPointees(s, |s|), env, n).value.tracker, s[n]) == ProtocolError(Unrepresentable)
    ensures s[n].size == 1 || s[n].size == 2
  {
    FirstPassEstablishes(w0, s, NarrowPointees(s, |s|), env, n);
    if s[n].size == 4 {
      assert Key(s[n].pointeeFile) in NarrowPointees(s, |s|);
      FourByteFits(NarrowPointees(s, |s|), First(w0, s, NarrowPointees(s, |s|), env, n).value.tracker, s[n]);
    }
  }
}

/** The blobs hold the downloaded files, but for what the script itself writes into them. */
module LoaderDownload {
  import opened Bytes
  import opened LoaderScript
  import opened LoaderFirstPass

  /** The first pass over the first `n` commands. */
  datatype Pass = Pass(start: World, script: Script, restricted: set<Mem>, env: nat -> Reply)

  ghost predicate Gets(p: Pass, n: nat)
    requires n <= |p.script|
  {
    First(p.start, p.script, p.restricted, p.env, n).Some?
  }

  ghost function Now(p: Pass, n: nat): World
    requires n <= |p.script| && Gets(p, n)
  {
    First(p.start, p.script, p.restricted, p.env, n).value
  }

  lemma GetsStep(p: Pass, n: nat)
    requires n < |p.script| && Gets(p, n + 1)
    ensures Gets(p, n)
    ensures StepStatus(Now(p, n), p.script[n], p.restricted, p.env(n)) == Success
    ensures Now(p, n + 1) == Next(Now(p, n), p.script[n], p.restricted, p.env(n))
  {
    hide StepStatus, Next;
  }

  /** The command writes byte `x` of blob `k`: it is in its pointer field, or its checksum goes there. */
  predicate WritesTo(c: Cmd, k: Mem, x: int) {
    || (c.AddPointer? && Key(c.pointerFile) == k && c.offset <= x < c.offset + c.size)
    || (c.AddChecksum? && Key(c.file) == k && c.result == x)
  }

  ghost predicate Written(s: Script, n: nat, k: Mem, x: int)
    requires n <= |s|
  {
    exists j :: 0 <= j < n && WritesTo(s[j], k, x)
  }

  /** Command `a` is an ALLOCATE that downloads file `k`. */
  ghost predicate Downloads(p: Pass, a: nat, k: Mem) {
    && a < |p.script| && p.script[a].Allocate? && Key(p.script[a].file) == k
    && Gets(p, a) && k in Now(p, a).files
  }

  /** `data` is the file that command `a` downloaded, except where one of `n` commands writes. */
  ghost predicate IsFile(p: Pass, n: nat, k: Mem, data: Mem, a: nat)
    requires n <= |p.script|
  {
    && a < n && Downloads(p, a, k) && |data| == |Now(p, a).files[k]|
    && forall x :: 0 <= x < |data| && !Written(p.script, n, k, x) ==> data[x] == Now(p, a).files[k][x]
  }

  ghost predicate FromHost(p: Pass, n: nat, k: Mem)
    requires n <= |p.script| && Gets(p, n) && k in Now(p, n).tracker
  {
    exists a: nat :: IsFile(p, n, k, Now(p, n).tracker[k].data, a)
  }

  /** A command that succeeds changes no byte of a blob that it does not write. */
  lemma NextData(w: World, c: Cmd, restricted: set<Mem>, r: Reply, k: Mem)
    requires StepStatus(w, c, restricted, r) == Success && k in w.tracker
    ensures var v := Next(w, c, restricted, r);
            && k in v.tracker && |v.tracker[k].data| == |w.tracker[k].data|
            && forall x :: 0 <= x < |w.tracker[k].data| && !WritesTo(c, k, x) ==> v.tracker[k].data[x] == w.tracker[k].data[x]
  {
  }

  /** A new blob is the file as the host holds it now. */
  lemma NewBlob(w: World, c: Cmd, restricted: set<Mem>, r: Reply, k: Mem)
    requires StepStatus(w, c, restricted, r) == Success
    requires k in Next(w, c, restricted, r).tracker && k !in w.tracker
    ensures c.Allocate? && Key(c.file) == k && k in w.files && Next(w, c, restricted, r).tracker[k].data == w.files[k]
  {
  }

  lemma IsFileNext(p: Pass, n: nat, k: Mem, a: nat)
    requires n < |p.script| && Gets(p, n + 1) && Gets(p, n) && k in Now(p, n).tracker && k in Now(p, n + 1).tracker
    requires IsFile(p, n, k, Now(p, n).tracker[k].data, a)
    ensures IsFile(p, n + 1, k, Now(p, n + 1).tracker[k].data, a)
  {
    hide StepStatus, Next, First, WritesTo;
    GetsStep(p, n);
    NextData(Now(p, n), p.script[n], p.restricted, p.env(n), k);
    var before, after := Now(p, n).tracker[k].data, Now(p, n + 1).tracker[k].data;
    forall x | 0 <= x < |after| && !Written(p.script, n + 1, k, x)
      ensures after[x] == Now(p, a).files[k][x]
    {
      assert !WritesTo(p.script[n], k, x);
      assert !Written(p.script, n, k, x);
    }
  }

  lemma IsFileNew(p: Pass, n: nat, k: Mem)
    requires n < |p.script| && Gets(p, n + 1) && Gets(p, n) && k !in Now(p, n).tracker && k in Now(p, n + 1).tracker
    ensures IsFile(p, n + 1, k, Now(p, n + 1).tracker[k].data, n)
  {
    hide StepStatus, Next, First, Written;
    GetsStep(p, n);
    NewBlob(Now(p, n), p.script[n], p.restricted, p.env(n), k);
  }

  /**
   After every prefix that succeeds, each blob holds the file that its ALLOCATE downloaded, in every
   byte that no ADD_POINTER or ADD_CHECKSUM of the prefix writes.
   */
  lemma {:induction false} BlobsAreFiles(p: Pass, n: nat, k: Mem)
    requires n <= |p.script| && p.start.tracker == map[] && Gets(p, n) && k in Now(p, n).tracker
    ensures FromHost(p, n, k)
  {
    hide StepStatus, Next, IsFile;
    if n > 0 {
      GetsStep(p, n - 1);
      if k in Now(p, n - 1).tracker {
        BlobsAreFiles(p, n - 1, k);
        var a: nat :| IsFile(p, n - 1, k, Now(p, n - 1).tracker[k].data, a);
        IsFileNext(p, n - 1, k, a);
      } else {
        IsFileNew(p, n - 1, k);
      }
    }
  }

  /** What the host held at the start is what is downloaded, unless the script itself has told it otherwise. */
  lemma BlobsAreInitialFiles(p: Pass, n: nat, k: Mem) returns (a: nat)
    requires n <= |p.script| && p.start.tracker == map[] && Gets(p, n) && k in Now(p, n).tracker
    ensures a < n && p.script[a].Allocate? && Key(p.script[a].file) == k
    ensures var data := Now(p, n).tracker[k].data;
            k in p.start.files && |data| == |p.start.files[k]| &&
            forall x :: 0 <= x < |data| && !Written(p.script, n, k, x) && !Covered(p.script, a, k, x)
              ==> data[x] == p.start.files[k][x]
  {
    hide First, Established, Covered, Written;
    BlobsAreFiles(p, n, k);
    a :| IsFile(p, n, k, Now(p, n).tracker[k].data, a);
    FirstPassEstablishes(p.start, p.script, p.restricted, p.env, a);
    EstablishedRest(p.start, Now(p, a), p.script, p.restricted, a);
  }

  lemma EstablishedRest(w0: World, w: World, s: Script, restricted: set<Mem>, n: nat)
    requires n <= |s| && Established(w0, w, s, restricted, n)
    ensures Rest(w0.files, w.files, s, n)
  {
    hide Owned, AllPlaced, AllSendable, Rest, Low, Flags, Told, AllAimed, Clear;
  }

  // ----- the bytes that the script writes -----

  /** An ADD_CHECKSUM makes its result byte complete the old sum of its range to 0. */
  lemma ChecksumCompletes(t: Tracker, c: Cmd)
    requires c.AddChecksum? && ChecksumStatus(t, c) == Success
    ensures Key(c.file) in t && c.start + c.length <= |t[Key(c.file)].data| && c.result < |t[Key(c.file)].data|
    ensures (Sum(t[Key(c.file)].data, c.start, c.start + c.length) + Checksummed(t, c)[Key(c.file)].data[c.result]) % 256 == 0
  {
    hide Sum;
    var m := t[Key(c.file)].data;
    ComplementCompletes(Sum(m, c.start, c.start + c.length));
  }

  lemma ComplementCompletes(sum: nat)
    ensures (sum + Complement(sum)) % 256 == 0
  {
  }
}

/**
 Child enumeration leaves nothing out: when it ends, every option that is an object has been
 returned, and every byte of the object list belongs to a child or to a name that was skipped.
 */
module AmlChildComplete {
  import opened Bytes
  import opened AmlParse
  import opened AmlChild

  // ----- one call -----

  /** The size of the name at `cur`, 0 if there is none that fits the parent. */
  ghost function NameAt(t: Table, m: Mem, parent: Handle, cur: nat): nat
    requires cur < parent.End()
  {
    var e := Search(t, m, cur);
    if e.Some? && e.value.isNameChar then ObjectSize(t, e.value, m, cur, parent.End() - cur) else 0
  }

  /** Going on from `cur` name by name, byte `x` is in one of the names. */
  ghost predicate SkippedFrom(t: Table, m: Mem, parent: Handle, cur: nat, x: nat)
    decreases parent.End() - cur
  {
    && cur <= x && cur < parent.End()
    && var s := NameAt(t, m, parent, cur);
       0 < s && (x < cur + s || SkippedFrom(t, m, parent, cur + s, x))
  }

  /** What is passed over on the way to the next object of a list are names. */
  lemma {:induction false} BufferGap(t: Table, m: Mem, parent: Handle, cur: nat)
    ensures var r := ChildInBuffer(t, m, parent, cur);
            && (r.Pos? ==> forall x: nat :: cur <= x < r.pos ==> SkippedFrom(t, m, parent, cur, x))
            && (r.NoMore? ==> forall x: nat :: cur <= x < parent.End() ==> SkippedFrom(t, m, parent, cur, x))
    decreases parent.End() - cur
  {
    hide ObjectSize;
    var r := ChildInBuffer(t, m, parent, cur);
    if cur < parent.End() && !r.Fail? && Search(t, m, cur).value.isNameChar {
      var s := ObjectSize(t, Search(t, m, cur).value, m, cur, parent.End() - cur);
      assert NameAt(t, m, parent, cur) == s;
      BufferGap(t, m, parent, cur + s);
    }
  }

  /** Option `k` is an object; `at` is where it starts. */
  ghost predicate ChildOption(t: Table, m: Mem, parent: Handle, k: nat, at: nat, size: nat)
    requires parent.Node?
  {
    && 1 <= k <= |parent.enc.formats| && parent.buf < at
    && ParseOption(t, parent.enc, m, parent.buf, parent.size, k) == Ok(Child, at - parent.buf, size)
  }

  /** The option search finds the next object option: none that starts after `prev` is passed over. */
  lemma {:induction false} OptionGap(t: Table, m: Mem, parent: Handle, prev: nat, i: nat, k: nat, at: nat, size: nat)
    requires parent.Node? && 1 <= i <= k && ChildOption(t, m, parent, k, at, size) && prev < at
    ensures var r := ChildInOptions(t, m, parent, prev, i);
            r.Fail? || (r.Pos? && r.pos <= at)
    decreases k - i
  {
    hide ParseOption;
    if i < k {
      OptionsTile(t, parent.enc, m, parent.buf, parent.size, i, k);
      OptionGap(t, m, parent, prev, i + 1, k, at, size);
    }
  }

  // ----- what has been seen after some calls -----

  /** Where the search in the object list goes on. */
  ghost function Frontier(t: Table, m: Mem, parent: Handle, prev: Option<Handle>): nat
    requires parent.Node? ==> OffsetAfterLastOption(t, m, parent).Some?
  {
    if parent.Root? then (if prev.Some? then prev.value.End() else parent.buf)
    else
      var first := OffsetAfterLastOption(t, m, parent).value;
      if prev.None? || prev.value.buf < first then first else prev.value.End()
  }

  ghost predicate HasList(t: Table, m: Mem, parent: Handle) {
    parent.Node? ==> parent.enc.hasChild && OffsetAfterLastOption(t, m, parent).Some?
  }

  /** Byte `x` is in a name skipped by one of the first `n` calls or the next: behind the list start or a child. */
  ghost predicate Skipped(t: Table, m: Mem, parent: Handle, hs: seq<Handle>, n: nat, x: nat)
    requires n <= |hs| && HasList(t, m, parent)
  {
    exists j: nat :: j <= n && SkippedFrom(t, m, parent, Frontier(t, m, parent, Previous(hs, j)), x)
  }

  ghost predicate InChild(hs: seq<Handle>, n: nat, x: nat)
    requires n <= |hs|
  {
    exists i :: 0 <= i < n && hs[i].buf <= x < hs[i].End()
  }

  /** The first `n` children include every object option that starts no later than the last of them. */
  ghost predicate OptionsSeen(t: Table, m: Mem, parent: Handle, hs: seq<Handle>, n: nat)
    requires n <= |hs| && parent.Node?
  {
    forall k: nat, at: nat, size: nat :: ChildOption(t, m, parent, k, at, size) && 0 < n && at <= hs[n - 1].buf ==>
      Returned(hs, n, at, size)
  }

  ghost predicate Returned(hs: seq<Handle>, n: nat, at: nat, size: nat)
    requires n <= |hs|
  {
    exists i :: 0 <= i < n && hs[i].buf == at && hs[i].size == size
  }

  ghost predicate BytesSeen(t: Table, m: Mem, parent: Handle, hs: seq<Handle>, n: nat)
    requires n <= |hs| && HasList(t, m, parent)
  {
    forall x: nat :: Frontier(t, m, parent, None) <= x < Frontier(t, m, parent, Previous(hs, n)) ==>
      Accounted(t, m, parent, hs, n, x)
  }

  /** Byte `x` is in one of the first `n` children, or in a name passed over on the way. */
  ghost predicate Accounted(t: Table, m: Mem, parent: Handle, hs: seq<Handle>, n: nat, x: nat)
    requires n <= |hs| && HasList(t, m, parent)
  {
    InChild(hs, n, x) || Skipped(t, m, parent, hs, n, x)
  }

  /** The list part of a call is a search from the frontier. */
  lemma ListFromFrontier(t: Table, m: Mem, parent: Handle, prev: Option<Handle>)
    requires HasList(t, m, parent)
    requires parent.Node? && prev.None? ==> parent.buf < OffsetAfterLastOption(t, m, parent).value
    ensures var p := ChildInBuffer(t, m, parent, Frontier(t, m, parent, prev));
            if parent.Root? then ChildPlace(t, m, parent, prev) == p
            else ChildInList(t, m, parent, if prev.Some? then prev.value else parent) == p
  {
  }

  lemma FirstBehindParent(t: Table, m: Mem, parent: Handle)
    requires parent.Node? && OffsetAfterLastOption(t, m, parent).Some?
    ensures parent.buf < OffsetAfterLastOption(t, m, parent).value
  {
  }

  /** The object option at the place that the option search found is the child returned there. */
  lemma OptionReturned(t: Table, m: Mem, parent: Handle, prev: Option<Handle>, k: nat, at: nat, size: nat)
    requires parent.Node? && Opened(t, m, parent) && ChildOption(t, m, parent, k, at, size)
    requires ChildPlace(t, m, parent, prev) == Pos(at)
    ensures GetChild(t, m, parent, prev).Next?
    ensures GetChild(t, m, parent, prev).child.buf == at && GetChild(t, m, parent, prev).child.size == size
  {
    hide ParseOption, ChildPlace;
    OptionOpens(t, m, parent, k);
  }

  lemma OptionsStep(t: Table, m: Mem, parent: Handle, hs: seq<Handle>, n: nat)
    requires parent.Node? && Opened(t, m, parent) && Enumeration(t, m, parent, hs) && n < |hs|
    requires OptionsSeen(t, m, parent, hs, n)
    ensures OptionsSeen(t, m, parent, hs, n + 1)
  {
    hide ChildOption;
    EnumerationPlaced(t, m, parent, hs, n);
    forall k: nat, at: nat, size: nat | ChildOption(t, m, parent, k, at, size) && at <= hs[n].buf
      ensures Returned(hs, n + 1, at, size)
    {
      OptionStep(t, m, parent, hs, n, k, at, size);
    }
  }

  lemma OptionStep(t: Table, m: Mem, parent: Handle, hs: seq<Handle>, n: nat, k: nat, at: nat, size: nat)
    requires parent.Node? && Opened(t, m, parent) && Enumeration(t, m, parent, hs) && n < |hs|
    requires OptionsSeen(t, m, parent, hs, n)
    requires ChildOption(t, m, parent, k, at, size) && at <= hs[n].buf
    ensures Returned(hs, n + 1, at, size)
  {
    hide ParseOption, ChildInOptions, ChildInList, OffsetAfterLastOption;
    var prev := Previous(hs, n);
    var from := if prev.Some? then prev.value else parent;
    assert GetChild(t, m, parent, prev) == Next(hs[n]);
    if at <= from.buf {
      assert 0 < n && Returned(hs, n, at, size);
      var i :| 0 <= i < n && hs[i].buf == at && hs[i].size == size;
      assert hs[i].buf == at;
    } else {
      OptionGap(t, m, parent, from.buf, 1, k, at, size);
      assert ChildPlace(t, m, parent, prev) == Pos(at);
      OptionReturned(t, m, parent, prev, k, at, size);
    }
  }

  lemma BytesStep(t: Table, m: Mem, parent: Handle, hs: seq<Handle>, n: nat)
    requires Opened(t, m, parent) && Enumeration(t, m, parent, hs) && n < |hs|
    requires HasList(t, m, parent) && BytesSeen(t, m, parent, hs, n)
    ensures BytesSeen(t, m, parent, hs, n + 1)
  {
    hide ParseOption, ChildInOptions, ChildInBuffer, SkippedFrom, OffsetAfterLastOption, Opened;
    var prev := Previous(hs, n);
    assert GetChild(t, m, parent, prev) == Next(hs[n]);
    var here, there := Frontier(t, m, parent, prev), Frontier(t, m, parent, Previous(hs, n + 1));
    if parent.Node? { FirstBehindParent(t, m, parent); }
    ListFromFrontier(t, m, parent, prev);
    BufferGap(t, m, parent, here);
    if !(parent.Root? || ChildInOptions(t, m, parent, (if prev.Some? then prev.value else parent).buf, 1).NoMore?) {
      OptionChild(t, m, parent, prev);
      assert there == here;
    }
    var next := n + 1;
    forall x: nat | Frontier(t, m, parent, None) <= x < there
      ensures Accounted(t, m, parent, hs, next, x)
    {
      if x < here {
        assert Accounted(t, m, parent, hs, n, x);
        AccountedGrows(t, m, parent, hs, n, x);
      } else if hs[n].buf <= x {
        assert InChild(hs, n + 1, x);
      } else {
        assert SkippedFrom(t, m, parent, here, x);
        assert Skipped(t, m, parent, hs, n + 1, x);
      }
    }
  }

  lemma AccountedGrows(t: Table, m: Mem, parent: Handle, hs: seq<Handle>, n: nat, x: nat)
    requires n < |hs| && HasList(t, m, parent) && Accounted(t, m, parent, hs, n, x)
    ensures Accounted(t, m, parent, hs, n + 1, x)
  {
    if InChild(hs, n, x) {
      var i :| 0 <= i < n && hs[i].buf <= x < hs[i].End();
      assert hs[i].buf <= x < hs[i].End();
    } else {
      var j: nat :| j <= n && SkippedFrom(t, m, parent, Frontier(t, m, parent, Previous(hs, j)), x);
      assert SkippedFrom(t, m, parent, Frontier(t, m, parent, Previous(hs, j)), x);
    }
  }

  /** A child that comes from the options, and the one before it, lie before the object list. */
  lemma OptionChild(t: Table, m: Mem, parent: Handle, prev: Option<Handle>)
    requires parent.Node? && HasList(t, m, parent)
    requires GetChild(t, m, parent, prev).Next?
    requires ChildInOptions(t, m, parent, (if prev.Some? then prev.value else parent).buf, 1).Pos?
    ensures GetChild(t, m, parent, prev).child.buf < OffsetAfterLastOption(t, m, parent).value
    ensures prev.Some? ==> prev.value.buf < OffsetAfterLastOption(t, m, parent).value
  {
    hide ParseOption, OffsetAfterLastOption;
    var from := if prev.Some? then prev.value else parent;
    var j := OptionFound(t, m, parent, from.buf, 1);
    OptionBeforeList(t, m, parent, j);
  }

  lemma {:induction false} Seen(t: Table, m: Mem, parent: Handle, hs: seq<Handle>, n: nat)
    requires Opened(t, m, parent) && Enumeration(t, m, parent, hs) && n <= |hs|
    ensures parent.Node? ==> OptionsSeen(t, m, parent, hs, n)
    ensures HasList(t, m, parent) ==> BytesSeen(t, m, parent, hs, n)
  {
    hide Opened, Enumeration, OptionsSeen, BytesSeen, HasList, Frontier;
    if n == 0 {
      NothingSeen(t, m, parent, hs);
    } else {
      Seen(t, m, parent, hs, n - 1);
      if parent.Node? { OptionsStep(t, m, parent, hs, n - 1); }
      if HasList(t, m, parent) { BytesStep(t, m, parent, hs, n - 1); }
    }
  }

  lemma NothingSeen(t: Table, m: Mem, parent: Handle, hs: seq<Handle>)
    ensures parent.Node? ==> OptionsSeen(t, m, parent, hs, 0)
    ensures HasList(t, m, parent) ==> BytesSeen(t, m, parent, hs, 0)
  {
  }

  // ----- an enumeration that has ended -----

  /** Repeated calls have returned `hs`, and the next one reports the end. */
  ghost predicate Complete(t: Table, m: Mem, parent: Handle, hs: seq<Handle>) {
    Enumeration(t, m, parent, hs) && GetChild(t, m, parent, Previous(hs, |hs|)) == Done
  }

  /** Every option that is an object has been returned. */
  lemma OptionsComplete(t: Table, m: Mem, parent: Handle, hs: seq<Handle>, k: nat, at: nat, size: nat)
    requires parent.Node? && Opened(t, m, parent) && Complete(t, m, parent, hs)
    requires ChildOption(t, m, parent, k, at, size)
    ensures Returned(hs, |hs|, at, size)
  {
    hide ParseOption, ChildInOptions, ChildInList;
    Seen(t, m, parent, hs, |hs|);
    var from := if hs == [] then parent else hs[|hs| - 1];
    if from.buf < at {
      OptionGap(t, m, parent, from.buf, 1, k, at, size);
    }
  }

  /** Every byte from the start of the object list on is in a child or in a name that the calls skipped. */
  lemma BytesComplete(t: Table, m: Mem, parent: Handle, hs: seq<Handle>, x: nat)
    requires Opened(t, m, parent) && Complete(t, m, parent, hs)
    requires parent.Node? ==> parent.enc.hasChild
    ensures HasList(t, m, parent)
    ensures Frontier(t, m, parent, None) <= x < parent.End() ==>
              Accounted(t, m, parent, hs, |hs|, x)
  {
    hide ParseOption, ChildInOptions, ChildInBuffer, SkippedFrom, Opened;
    Seen(t, m, parent, hs, |hs|);
    var prev := Previous(hs, |hs|);
    if parent.Node? { FirstBehindParent(t, m, parent); }
    ListFromFrontier(t, m, parent, prev);
    BufferGap(t, m, parent, Frontier(t, m, parent, prev));
  }
}

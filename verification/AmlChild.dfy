/**
 Child enumeration. Children of an object are first its option objects, then the objects of
 its object list; each call of GetChild finds its place again from the previous handle alone.
 */
module AmlChild {
  import opened Bytes
  import opened AmlParse
  import AmlLocality

  /** A root handle spans a table's body; any other handle spans one object. */
  datatype Handle = Root(buf: nat, size: nat) | Node(buf: nat, size: nat, enc: Encoding) {
    function End(): nat { buf + size }
  }

  function OpenEx(t: Table, m: Mem, o: nat, max: nat): Option<Handle> {
    match Search(t, m, o)
    case None => None
    case Some(e) =>
      if e.isNameChar then None
      else
        var s := ObjectSize(t, e, m, o, max);
        if s == 0 then None else Some(Node(o, s, e))
  }

  datatype Place = Fail | NoMore | Pos(pos: nat)

  /** The first object that is not a name, at or after `cur`. */
  function ChildInBuffer(t: Table, m: Mem, parent: Handle, cur: nat): (r: Place)
    ensures r.Pos? ==> cur <= r.pos < parent.End()
    decreases parent.End() - cur
  {
    if cur >= parent.End() then NoMore
    else
      match Search(t, m, cur)
      case None => Fail
      case Some(e) =>
        if !e.isNameChar then Pos(cur)
        else
          var s := ObjectSize(t, e, m, cur, parent.End() - cur);
          if s == 0 then Fail else ChildInBuffer(t, m, parent, cur + s)
  }

  /** The first option from number `k` on that is an object and starts after `prev`. */
  function ChildInOptions(t: Table, m: Mem, parent: Handle, prev: nat, k: nat): (r: Place)
    requires parent.Node? && 1 <= k
    ensures r.Pos? ==> parent.buf < r.pos < parent.End()
    decreases |parent.enc.formats| + 1 - k
  {
    if k > |parent.enc.formats| then NoMore
    else
      match ParseOption(t, parent.enc, m, parent.buf, parent.size, k)
      case Err => Fail
      case Ok(d, rel, _) =>
        if d == Child && prev < parent.buf + rel then Pos(parent.buf + rel)
        else ChildInOptions(t, m, parent, prev, k + 1)
  }

  /** Where the object list starts: after the last option, or after the PkgLength. */
  function OffsetAfterLastOption(t: Table, m: Mem, h: Handle): Option<nat>
    requires h.Node?
  {
    match ParseOption(t, h.enc, m, h.buf, h.size, |h.enc.formats|)
    case Err => None
    case Ok(d, rel, s) =>
      var next := h.buf + rel + s;
      Some(if d == Opcode then next + PkgLength(m, next).bytes else next)
  }

  function ChildInList(t: Table, m: Mem, parent: Handle, prev: Handle): (r: Place)
    requires parent.Node?
    ensures r.Pos? ==> r.pos < parent.End()
  {
    if !parent.enc.hasChild then NoMore
    else
      match OffsetAfterLastOption(t, m, parent)
      case None => Fail
      case Some(first) =>
        if prev.buf < first then ChildInBuffer(t, m, parent, first)
        else if prev.End() < parent.End() then ChildInBuffer(t, m, parent, prev.End())
        else NoMore
  }

  function ChildPlace(t: Table, m: Mem, parent: Handle, prev: Option<Handle>): (r: Place)
    ensures r.Pos? ==> r.pos < parent.End()
  {
    match parent
    case Root(buf, _) =>
      ChildInBuffer(t, m, parent, if prev.Some? then prev.value.End() else buf)
    case Node(_, _, _) =>
      var from := if prev.Some? then prev.value else parent;
      var p := ChildInOptions(t, m, parent, from.buf, 1);
      if p.NoMore? then ChildInList(t, m, parent, from) else p
  }

  datatype ChildResult = Invalid | Done | Next(child: Handle)

  function GetChild(t: Table, m: Mem, parent: Handle, prev: Option<Handle>): ChildResult {
    match ChildPlace(t, m, parent, prev)
    case Fail => Invalid
    case NoMore => Done
    case Pos(p) =>
      match OpenEx(t, m, p, parent.End() - p)
      case None => Invalid
      case Some(h) => Next(h)
  }

  // ----- the two loops as the driver runs them -----

  method GetChildFromObjectBuffer(t: Table, m: Mem, parent: Handle, start: nat) returns (r: Place)
    ensures r == ChildInBuffer(t, m, parent, start)
  {
    var cur := start;
    while cur < parent.End()
      invariant ChildInBuffer(t, m, parent, start) == ChildInBuffer(t, m, parent, cur)
      decreases parent.End() - cur
    {
      var e := SearchByOpByte(t, m, cur);
      if e.None? { return Fail; }
      if !e.value.isNameChar { return Pos(cur); }
      var size := GetObjectSize(t, e.value, m, cur, parent.End() - cur);
      if size == 0 { return Fail; }
      cur := cur + size;
    }
    return NoMore;
  }

  method GetChildFromOptionList(t: Table, m: Mem, parent: Handle, prev: nat) returns (r: Place)
    requires parent.Node?
    ensures r == ChildInOptions(t, m, parent, prev, 1)
  {
    var index := 1;
    while index <= |parent.enc.formats|
      invariant 1 <= index
      invariant ChildInOptions(t, m, parent, prev, 1) == ChildInOptions(t, m, parent, prev, index)
      decreases |parent.enc.formats| + 1 - index
    {
      var p := ParseOptionCommon(t, parent.enc, m, parent.buf, parent.size, index);
      if p.Err? { return Fail; }
      if p.dtype == Child && prev < parent.buf + p.data { return Pos(parent.buf + p.data); }
      index := index + 1;
    }
    return NoMore;
  }

  // ----- options tile the front of an object -----

  lemma {:induction false} TermsTile(t: Table, e: Encoding, m: Mem, o: nat, max: nat, cur: nat, k: nat, i: nat, j: nat)
    requires 1 <= k <= i < j <= |e.formats|
    requires ParseTerms(t, e, m, o, max, cur, k, j).Ok?
    ensures var a, b := ParseTerms(t, e, m, o, max, cur, k, i), ParseTerms(t, e, m, o, max, cur, k, j);
            a.Ok? && a.data + a.size <= b.data && (j == i + 1 ==> a.data + a.size == b.data)
    decreases j - k
  {
    var s := ParseTerm(t, e.formats[k - 1], m, o + cur, max - cur).size;
    if k == i {
      assert j == k + 1 ==> ParseTerms(t, e, m, o, max, cur + s, k + 1, j).data == cur + s;
    } else {
      TermsTile(t, e, m, o, max, cur + s, k + 1, i, j);
    }
  }

  /** Every option before a readable one is readable, and they lie side by side in order. */
  lemma OptionsTile(t: Table, e: Encoding, m: Mem, o: nat, max: nat, i: nat, j: nat)
    requires 1 <= i < j <= |e.formats|
    requires ParseOption(t, e, m, o, max, j).Ok?
    ensures var a, b := ParseOption(t, e, m, o, max, i), ParseOption(t, e, m, o, max, j);
            a.Ok? && a.data + a.size <= b.data && (j == i + 1 ==> a.data + a.size == b.data)
  {
    hide ParseTerms, PkgLength;
    var op := OpLength(m, o);
    var p := PkgLength(m, o + op);
    if e.hasPkg {
      TermsTile(t, e, m, o, op + p.length, op + p.bytes, 1, i, j);
    } else {
      TermsTile(t, e, m, o, max, op, 1, i, j);
    }
  }

  lemma {:induction false} TermsEnd(t: Table, e: Encoding, m: Mem, o: nat, max: nat, cur: nat, k: nat)
    requires 1 <= k <= |e.formats|
    requires ParseTerms(t, e, m, o, max, cur, k, |e.formats|).Ok?
    ensures var last := ParseTerms(t, e, m, o, max, cur, k, |e.formats|);
            ParseTerms(t, e, m, o, max, cur, k, GET_SIZE) == Ok(NoType, 0, last.data + last.size)
    decreases |e.formats| - k
  {
    var s := ParseTerm(t, e.formats[k - 1], m, o + cur, max - cur).size;
    if k < |e.formats| {
      TermsEnd(t, e, m, o, max, cur + s, k + 1);
    } else {
      assert ParseTerms(t, e, m, o, max, cur + s, k + 1, GET_SIZE) == Ok(NoType, 0, cur + s);
    }
  }

  /**
   Measuring and option lookup are separate traversals that agree: an object without a
   PkgLength ends where its last option ends, one with a PkgLength no earlier.
   */
  lemma SizeMatchesOptions(t: Table, e: Encoding, m: Mem, o: nat, max: nat)
    requires !e.isNameChar && 0 < |e.formats|
    requires ParseOption(t, e, m, o, max, |e.formats|).Ok?
    ensures var last := ParseOption(t, e, m, o, max, |e.formats|);
            var s := ObjectSize(t, e, m, o, max);
            last.data + last.size <= s && (!e.hasPkg ==> last.data + last.size == s)
  {
    hide ParseTerms, PkgLength;
    var op := OpLength(m, o);
    var p := PkgLength(m, o + op);
    if e.hasPkg {
      TermsEnd(t, e, m, o, op + p.length, op + p.bytes, 1);
    } else {
      TermsEnd(t, e, m, o, max, op, 1);
    }
  }

  // ----- enumeration -----

  /** A root handle, or a handle as OpenEx makes them. */
  ghost predicate Opened(t: Table, m: Mem, h: Handle) {
    h.Node? ==> !h.enc.isNameChar && 0 < h.size == ObjectSize(t, h.enc, m, h.buf, h.size)
  }

  lemma OpenExOpened(t: Table, m: Mem, o: nat, max: nat)
    requires OpenEx(t, m, o, max).Some?
    ensures var h := OpenEx(t, m, o, max).value;
            Opened(t, m, h) && h.Node? && h.buf == o && 1 <= h.size <= max
  {
    AmlLocality.Remeasure(t, Search(t, m, o).value, m, o, max, OpenEx(t, m, o, max).value.size);
  }

  /** `h` is option `k` of `parent`. */
  ghost predicate IsOption(t: Table, m: Mem, parent: Handle, h: Handle, k: nat)
    requires parent.Node?
  {
    && 1 <= k <= |parent.enc.formats| && parent.buf <= h.buf
    && ParseOption(t, parent.enc, m, parent.buf, parent.size, k) == Ok(Child, h.buf - parent.buf, h.size)
  }

  /** `h` lies in the object list of `parent`. */
  ghost predicate InList(t: Table, m: Mem, parent: Handle, h: Handle)
    requires parent.Node?
  {
    var first := OffsetAfterLastOption(t, m, parent);
    first.Some? && first.value <= h.buf
  }

  /** The handle is one that enumeration can have returned. */
  ghost predicate Placed(t: Table, m: Mem, parent: Handle, h: Handle) {
    && parent.buf <= h.buf && h.End() <= parent.End() && 1 <= h.size
    && (parent.Node? ==> InList(t, m, parent, h) || exists k :: IsOption(t, m, parent, h, k))
  }

  lemma {:induction false} OptionFound(t: Table, m: Mem, parent: Handle, prev: nat, k: nat) returns (j: nat)
    requires parent.Node? && 1 <= k
    requires ChildInOptions(t, m, parent, prev, k).Pos?
    ensures k <= j <= |parent.enc.formats|
    ensures var r := ParseOption(t, parent.enc, m, parent.buf, parent.size, j);
            r.Ok? && r.dtype == Child && ChildInOptions(t, m, parent, prev, k).pos == parent.buf + r.data
    ensures prev < ChildInOptions(t, m, parent, prev, k).pos
    decreases |parent.enc.formats| - k
  {
    var r := ParseOption(t, parent.enc, m, parent.buf, parent.size, k);
    if r.dtype == Child && prev < parent.buf + r.data {
      j := k;
    } else {
      j := OptionFound(t, m, parent, prev, k + 1);
    }
  }

  lemma {:induction false} TermsChildSize(t: Table, e: Encoding, m: Mem, o: nat, max: nat, cur: nat, k: nat, j: nat)
    requires 1 <= k <= j <= |e.formats|
    requires var r := ParseTerms(t, e, m, o, max, cur, k, j); r.Ok? && r.dtype == Child
    ensures var r := ParseTerms(t, e, m, o, max, cur, k, j);
            r.data < max && OpenEx(t, m, o + r.data, max - r.data).Some? &&
            OpenEx(t, m, o + r.data, max - r.data).value.size == r.size
    decreases j - k
  {
    if k < j {
      var s := ParseTerm(t, e.formats[k - 1], m, o + cur, max - cur).size;
      TermsChildSize(t, e, m, o, max, cur + s, k + 1, j);
    }
  }

  /** Opening an option object gives the handle of exactly the bytes of that option. */
  lemma OptionOpens(t: Table, m: Mem, parent: Handle, j: nat)
    requires parent.Node? && Opened(t, m, parent)
    requires 1 <= j <= |parent.enc.formats|
    requires var r := ParseOption(t, parent.enc, m, parent.buf, parent.size, j); r.Ok? && r.dtype == Child
    ensures var r := ParseOption(t, parent.enc, m, parent.buf, parent.size, j);
            r.data < parent.size &&
            var h := OpenEx(t, m, parent.buf + r.data, parent.size - r.data);
            h.Some? && h.value.buf == parent.buf + r.data && h.value.size == r.size
  {
    hide ParseTerms, PkgLength;
    var op := OpLength(m, parent.buf);
    var p := PkgLength(m, parent.buf + op);
    if parent.enc.hasPkg {
      assert ParseOption(t, parent.enc, m, parent.buf, parent.size, GET_SIZE).size == op + p.length;
      TermsChildSize(t, parent.enc, m, parent.buf, op + p.length, op + p.bytes, 1, j);
    } else {
      TermsChildSize(t, parent.enc, m, parent.buf, parent.size, op, 1, j);
    }
  }

  /** An option that is followed by the object list ends before it. */
  lemma OptionBeforeList(t: Table, m: Mem, parent: Handle, k: nat)
    requires parent.Node? && OffsetAfterLastOption(t, m, parent).Some?
    requires 1 <= k <= |parent.enc.formats|
    ensures var r := ParseOption(t, parent.enc, m, parent.buf, parent.size, k);
            r.Ok? && parent.buf + r.data + r.size <= OffsetAfterLastOption(t, m, parent).value
  {
    if k < |parent.enc.formats| {
      OptionsTile(t, parent.enc, m, parent.buf, parent.size, k, |parent.enc.formats|);
    }
  }

  lemma NextAmongOptions(t: Table, m: Mem, parent: Handle, prev: Handle)
    requires parent.Node? && Opened(t, m, parent)
    requires prev == parent || Placed(t, m, parent, prev)
    requires ChildInOptions(t, m, parent, prev.buf, 1).Pos?
    ensures var p := ChildInOptions(t, m, parent, prev.buf, 1).pos;
            p < parent.End() &&
            var h := OpenEx(t, m, p, parent.End() - p);
            h.Some? && Placed(t, m, parent, h.value) && (prev != parent ==> prev.End() <= p)
  {
    var j := OptionFound(t, m, parent, prev.buf, 1);
    OptionOpens(t, m, parent, j);
    var r := ParseOption(t, parent.enc, m, parent.buf, parent.size, j);
    var h := OpenEx(t, m, parent.buf + r.data, parent.size - r.data).value;
    assert IsOption(t, m, parent, h, j);
    if prev != parent {
      if InList(t, m, parent, prev) {
        OptionBeforeList(t, m, parent, j);
        assert false;
      }
      var k :| IsOption(t, m, parent, prev, k);
      if k < j {
        OptionsTile(t, parent.enc, m, parent.buf, parent.size, k, j);
      } else if j < k {
        OptionsTile(t, parent.enc, m, parent.buf, parent.size, j, k);
      }
    }
  }

  lemma NextInList(t: Table, m: Mem, parent: Handle, prev: Handle)
    requires parent.Node?
    requires prev == parent || Placed(t, m, parent, prev)
    requires ChildInList(t, m, parent, prev).Pos?
    ensures var p := ChildInList(t, m, parent, prev).pos;
            OffsetAfterLastOption(t, m, parent).Some? &&
            OffsetAfterLastOption(t, m, parent).value <= p && (prev != parent ==> prev.End() <= p)
  {
    var first := OffsetAfterLastOption(t, m, parent).value;
    if prev != parent && prev.buf < first {
      var k :| IsOption(t, m, parent, prev, k);
      OptionBeforeList(t, m, parent, k);
    }
  }

  /** One call of GetChild moves strictly forward and stays inside the parent. */
  lemma GetChildAdvances(t: Table, m: Mem, parent: Handle, prev: Option<Handle>)
    requires Opened(t, m, parent)
    requires prev.Some? ==> Placed(t, m, parent, prev.value) && prev.value != parent
    requires GetChild(t, m, parent, prev).Next?
    ensures var h := GetChild(t, m, parent, prev).child;
            && Placed(t, m, parent, h) && Opened(t, m, h) && h.Node?
            && (parent.Node? ==> parent.buf < h.buf)
            && (prev.Some? ==> prev.value.End() <= h.buf)
  {
    var p := ChildPlace(t, m, parent, prev).pos;
    var h := GetChild(t, m, parent, prev).child;
    OpenExOpened(t, m, p, parent.End() - p);
    if parent.Node? {
      var from := if prev.Some? then prev.value else parent;
      if ChildInOptions(t, m, parent, from.buf, 1).Pos? {
        NextAmongOptions(t, m, parent, from);
        var _ := OptionFound(t, m, parent, from.buf, 1);
      } else {
        NextInList(t, m, parent, from);
        assert InList(t, m, parent, h);
      }
    }
  }

  /** The handle that call number `i` of an enumeration passes in. */
  function Previous(hs: seq<Handle>, i: nat): Option<Handle>
    requires i <= |hs|
  {
    if i == 0 then None else Some(hs[i - 1])
  }

  /** `hs` is what repeated calls of GetChild return, starting from no handle. */
  ghost predicate Enumeration(t: Table, m: Mem, parent: Handle, hs: seq<Handle>) {
    forall i {:trigger Previous(hs, i)} :: 0 <= i < |hs| ==> GetChild(t, m, parent, Previous(hs, i)) == Next(hs[i])
  }

  lemma {:induction false} EnumerationPlaced(t: Table, m: Mem, parent: Handle, hs: seq<Handle>, i: nat)
    requires Opened(t, m, parent) && Enumeration(t, m, parent, hs)
    requires i < |hs|
    ensures Placed(t, m, parent, hs[i]) && Opened(t, m, hs[i]) && hs[i].Node?
    ensures parent.Node? ==> parent.buf < hs[i].buf
    ensures 0 < i ==> hs[i - 1].End() <= hs[i].buf
    ensures parent.buf + i <= hs[i].buf
  {
    if 0 < i {
      EnumerationPlaced(t, m, parent, hs, i - 1);
    }
    GetChildAdvances(t, m, parent, Previous(hs, i));
  }

  lemma {:induction false} EnumerationOrdered(t: Table, m: Mem, parent: Handle, hs: seq<Handle>, i: nat, j: nat)
    requires Opened(t, m, parent) && Enumeration(t, m, parent, hs)
    requires i < j < |hs|
    ensures hs[i].End() <= hs[j].buf
    decreases j
  {
    EnumerationPlaced(t, m, parent, hs, j);
    if i < j - 1 {
      EnumerationOrdered(t, m, parent, hs, i, j - 1);
      EnumerationPlaced(t, m, parent, hs, j - 1);
    }
  }

  /**
   Enumeration from no handle yields finitely many non-empty byte ranges inside the parent,
   strictly increasing and pairwise disjoint, across the hand-over from options to the list.
   */
  lemma EnumerationSound(t: Table, m: Mem, parent: Handle, hs: seq<Handle>)
    requires Opened(t, m, parent) && Enumeration(t, m, parent, hs)
    ensures |hs| <= parent.size
    ensures forall i :: 0 <= i < |hs| ==>
              1 <= hs[i].size && parent.buf <= hs[i].buf && hs[i].End() <= parent.End() && Opened(t, m, hs[i])
    ensures forall i, j :: 0 <= i < j < |hs| ==> hs[i].End() <= hs[j].buf
  {
    forall i | 0 <= i < |hs|
      ensures 1 <= hs[i].size && parent.buf <= hs[i].buf && hs[i].End() <= parent.End() && Opened(t, m, hs[i])
    {
      EnumerationPlaced(t, m, parent, hs, i);
    }
    forall i, j | 0 <= i < j < |hs| ensures hs[i].End() <= hs[j].buf {
      EnumerationOrdered(t, m, parent, hs, i, j);
    }
    if hs != [] {
      EnumerationPlaced(t, m, parent, hs, |hs| - 1);
    }
  }
}

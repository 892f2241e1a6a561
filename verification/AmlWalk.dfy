/**
 Building the namespace of an object and searching a path in it. The walk is specified by the
 list of definitions it visits; the tree built in the heap refines that list.
 */
module AmlWalk {
  import opened Bytes
  import opened AmlParse
  import opened AmlChild
  import opened AmlNamespace
  import AmlName
  import AmlLocality

  /** What the namespace walk demands of the encoding table. */
  ghost predicate NamedRow(e: Encoding) {
    e.inNamespace ==> !e.isNameChar && Name in e.formats
  }

  ghost predicate NamedTable(t: Table) {
    forall e :: e in t ==> NamedRow(e)
  }

  lemma {:induction false} LookupInTable(t: Table, op: byte, sub: byte)
    requires Lookup(t, op, sub).Some?
    ensures Lookup(t, op, sub).value in t
  {
    if t[0].op != op || t[0].sub != sub {
      LookupInTable(t[1..], op, sub);
    }
  }

  lemma SearchInTable(t: Table, m: Mem, o: nat)
    requires Search(t, m, o).Some?
    ensures Search(t, m, o).value in t
  {
    LookupInTable(t, Read(m, o), if Read(m, o) == EXT_OP then At(m, o, 1) else 0);
  }

  // ----- the name of an object: its last name option -----

  function LastName(formats: seq<Format>): (k: nat)
    ensures k <= |formats|
    ensures k == 0 <==> Name !in formats
    ensures 0 < k ==> formats[k - 1] == Name && Name !in formats[k..]
  {
    if formats == [] then 0
    else if formats[|formats| - 1] == Name then |formats|
    else
      var k := LastName(formats[..|formats| - 1]);
      assert formats == formats[..|formats| - 1] + [formats[|formats| - 1]];
      assert 0 < k ==> formats[k..] == formats[..|formats| - 1][k..] + [formats[|formats| - 1]];
      k
  }

  /** The address of the object's name, or None when its name option cannot be read. */
  function ObjectName(t: Table, m: Mem, h: Handle): Option<nat>
    requires h.Node?
  {
    match ParseOption(t, h.enc, m, h.buf, h.size, LastName(h.enc.formats))
    case Err => None
    case Ok(_, rel, _) => Some(h.buf + rel)
  }

  method GetObjectName(t: Table, m: Mem, h: Handle) returns (r: Option<nat>)
    requires h.Node? && NamedRow(h.enc) && h.enc.inNamespace
    ensures r == ObjectName(t, m, h)
  {
    var k := |h.enc.formats|;
    while 0 < k
      invariant k <= |h.enc.formats|
      invariant LastName(h.enc.formats) <= k
    {
      if h.enc.formats[k - 1] == Name { break; }
      k := k - 1;
    }
    assert k != 0;
    assert k == LastName(h.enc.formats);
    var p := ParseOptionCommon(t, h.enc, m, h.buf, h.size, k);
    if p.Err? { return None; }
    return Some(h.buf + p.data);
  }

  lemma {:induction false} TermsName(t: Table, e: Encoding, m: Mem, o: nat, max: nat, cur: nat, k: nat, j: nat)
    requires 1 <= k <= j <= |e.formats| && e.formats[j - 1] == Name
    requires ParseTerms(t, e, m, o, max, cur, k, j).Ok?
    ensures var r := ParseTerms(t, e, m, o, max, cur, k, j);
            r.dtype == NameString && AmlName.NameSize(m, o + r.data) == Some(r.size)
    decreases j - k
  {
    if k < j {
      var s := ParseTerm(t, e.formats[k - 1], m, o + cur, max - cur).size;
      TermsName(t, e, m, o, max, cur + s, k + 1, j);
    }
  }

  /** The name found is a NameString that the size function accepts, and it ends inside the object. */
  lemma ObjectNameAccepted(t: Table, m: Mem, h: Handle)
    requires h.Node? && NamedRow(h.enc) && h.enc.inNamespace
    requires ObjectName(t, m, h).Some?
    ensures AmlName.NameSize(m, ObjectName(t, m, h).value).Some?
    ensures h.buf < ObjectName(t, m, h).value
    ensures ObjectName(t, m, h).value + AmlName.NameSize(m, ObjectName(t, m, h).value).value <= h.End()
  {
    hide ParseTerms, PkgLength, AmlName.NameSize;
    var j := LastName(h.enc.formats);
    var op := OpLength(m, h.buf);
    var p := PkgLength(m, h.buf + op);
    if h.enc.hasPkg {
      TermsName(t, h.enc, m, h.buf, op + p.length, op + p.bytes, 1, j);
    } else {
      TermsName(t, h.enc, m, h.buf, h.size, op, 1, j);
    }
  }

  // ----- the definitions that a walk visits -----

  datatype Def = Def(path: Path, buf: nat, scope: bool, size: nat)

  datatype Visit = Visit(ok: bool, defs: seq<Def>)

  lemma ListStartsInside(t: Table, m: Mem, h: Handle)
    requires h.Node? && OffsetAfterLastOption(t, m, h).Some?
    ensures h.buf < OffsetAfterLastOption(t, m, h).value
  {}

  /** The object itself, then the objects of its list; `ok` is false for an error return. */
  function Walk(t: Table, m: Mem, h: Handle, base: Path): Visit
    requires h.Node? && 0 < h.size
    decreases h.size, 1
  {
    if !h.enc.inNamespace then Visit(true, [])
    else
      match ObjectName(t, m, h)
      case None => Visit(false, [])
      case Some(o) =>
        var d := Def(Resolve(m, o, base), h.buf, Read(m, h.buf) == SCOPE_OP, h.size);
        var rest := WalkChildren(t, m, h, d.path);
        Visit(rest.ok, [d] + rest.defs)
  }

  function WalkChildren(t: Table, m: Mem, h: Handle, base: Path): Visit
    requires h.Node? && 0 < h.size
    decreases h.size, 0
  {
    if !h.enc.hasChild then Visit(true, [])
    else
      match OffsetAfterLastOption(t, m, h)
      case None => Visit(false, [])
      case Some(first) =>
        ListStartsInside(t, m, h);
        Visit(true, WalkList(t, m, h, first, base))
  }

  /** The object list from `cur` on; the walk stops silently at the first object it cannot use. */
  function WalkList(t: Table, m: Mem, h: Handle, cur: nat, base: Path): seq<Def>
    requires h.Node?
    decreases if cur < h.End() then h.End() - cur else 0, 2
  {
    if cur >= h.End() then []
    else
      match OpenEx(t, m, cur, h.End() - cur)
      case None => []
      case Some(c) =>
        var v := Walk(t, m, c, base);
        if v.ok then v.defs + WalkList(t, m, h, cur + c.size, base) else v.defs
  }

  lemma {:induction false} WalkInside(t: Table, m: Mem, h: Handle, base: Path)
    requires h.Node? && 0 < h.size
    ensures forall d :: d in Walk(t, m, h, base).defs ==> h.buf <= d.buf < h.End()
    decreases h.size, 1
  {
    if h.enc.inNamespace && ObjectName(t, m, h).Some? && h.enc.hasChild && OffsetAfterLastOption(t, m, h).Some? {
      ListStartsInside(t, m, h);
      var first := OffsetAfterLastOption(t, m, h).value;
      WalkListInside(t, m, h, first, Resolve(m, ObjectName(t, m, h).value, base));
    }
  }

  lemma {:induction false} WalkListInside(t: Table, m: Mem, h: Handle, cur: nat, base: Path)
    requires h.Node?
    ensures forall d :: d in WalkList(t, m, h, cur, base) ==> cur <= d.buf < h.End()
    decreases if cur < h.End() then h.End() - cur else 0, 2
  {
    if cur < h.End() && OpenEx(t, m, cur, h.End() - cur).Some? {
      var c := OpenEx(t, m, cur, h.End() - cur).value;
      WalkInside(t, m, c, base);
      WalkListInside(t, m, h, cur + c.size, base);
    }
  }

  // ----- recording definitions -----

  type Bufs = map<Path, nat>

  /** Records definitions in order; None when a path would be given a second object. */
  function Record(b: Bufs, defs: seq<Def>): Option<Bufs>
    decreases |defs|
  {
    if defs == [] then Some(b)
    else if defs[0].scope then Record(b, defs[1..])
    else if defs[0].path in b then None
    else Record(b[defs[0].path := defs[0].buf], defs[1..])
  }

  lemma {:induction false} RecordConcat(b: Bufs, d1: seq<Def>, d2: seq<Def>)
    ensures Record(b, d1 + d2) == match Record(b, d1) case None => None case Some(c) => Record(c, d2)
    decreases |d1|
  {
    if d1 == [] {
      assert d1 + d2 == d2;
    } else {
      assert (d1 + d2)[1..] == d1[1..] + d2;
      if d1[0].scope {
        RecordConcat(b, d1[1..], d2);
      } else if d1[0].path !in b {
        RecordConcat(b[d1[0].path := d1[0].buf], d1[1..], d2);
      }
    }
  }

  /** No path has two definitions other than scopes. */
  ghost predicate NoRedefinition(defs: seq<Def>) {
    forall i, j :: 0 <= i < j < |defs| && !defs[i].scope && !defs[j].scope ==> defs[i].path != defs[j].path
  }

  /** The definition, other than a scope, that a path has. */
  ghost predicate DefinedAt(defs: seq<Def>, q: Path, buf: nat) {
    exists i :: 0 <= i < |defs| && defs[i].path == q && !defs[i].scope && defs[i].buf == buf
  }

  lemma {:induction false} RecordSound(b: Bufs, defs: seq<Def>, q: Path)
    requires Record(b, defs).Some?
    ensures q in b ==> q in Record(b, defs).value && Record(b, defs).value[q] == b[q]
    ensures q in Record(b, defs).value && q !in b ==> DefinedAt(defs, q, Record(b, defs).value[q])
    ensures forall i :: 0 <= i < |defs| && !defs[i].scope && defs[i].path == q ==>
              q !in b && q in Record(b, defs).value && Record(b, defs).value[q] == defs[i].buf
    decreases |defs|
  {
    if defs != [] {
      var d, rest := defs[0], defs[1..];
      var c := if d.scope then b else b[d.path := d.buf];
      RecordSound(c, rest, q);
      forall i | 0 <= i < |defs| && !defs[i].scope && defs[i].path == q
        ensures q !in b && q in Record(b, defs).value && Record(b, defs).value[q] == defs[i].buf
      {
        if 0 < i {
          assert rest[i - 1] == defs[i];
        }
      }
      var r := Record(b, defs).value;
      if q in r && q !in b {
        if q in c {
          assert DefinedAt(defs, q, r[q]);
        } else {
          var i :| 0 <= i < |rest| && rest[i].path == q && !rest[i].scope && rest[i].buf == r[q];
          assert defs[i + 1] == rest[i];
        }
      }
    }
  }

  lemma {:induction false} RecordFailsIff(b: Bufs, defs: seq<Def>)
    ensures Record(b, defs).Some? <==>
              NoRedefinition(defs) && forall i :: 0 <= i < |defs| && !defs[i].scope ==> defs[i].path !in b
    decreases |defs|
  {
    if defs != [] {
      var d, rest := defs[0], defs[1..];
      assert forall i :: 0 <= i < |rest| ==> rest[i] == defs[i + 1];
      assert forall i :: 0 < i < |defs| ==> defs[i] == rest[i - 1];
      RecordFailsIff(if d.scope then b else b[d.path := d.buf], rest);
      if Record(b, defs).Some? {
        forall i, j | 0 <= i < j < |defs| && !defs[i].scope && !defs[j].scope ensures defs[i].path != defs[j].path {
          assert defs[j] == rest[j - 1];
        }
      }
    }
  }

  // ----- the walk over the heap tree -----

  datatype Status = Success | InvalidParameter | AssertFailed

  /** The state after a walk: the recorded map, or a failed assertion on a redefinition. */
  ghost predicate Outcome(before: Bufs, v: Visit, st: Status, after: Bufs) {
    match Record(before, v.defs)
    case None => st == AssertFailed
    case Some(b) => st == (if v.ok then Success else InvalidParameter) && after == b
  }

  /** The first segment of the first definition that is not the root. */
  function FirstSeg(first: Option<Seg>, defs: seq<Def>): Option<Seg>
    decreases |defs|
  {
    if first.Some? || defs == [] then first
    else FirstSeg(if defs[0].path == [] then None else Some(defs[0].path[0]), defs[1..])
  }

  lemma {:induction false} FirstSegConcat(first: Option<Seg>, d1: seq<Def>, d2: seq<Def>)
    ensures FirstSeg(first, d1 + d2) == FirstSeg(FirstSeg(first, d1), d2)
    decreases |d1|
  {
    if d1 == [] {
      assert d1 + d2 == d2;
    } else if first.None? {
      assert (d1 + d2)[1..] == d1[1..] + d2;
      FirstSegConcat(if d1[0].path == [] then None else Some(d1[0].path[0]), d1[1..], d2);
    }
  }

  /** Appending what one child recorded, or failed to record, to what was recorded before it. */
  lemma OutcomeAppends(before: Bufs, done: seq<Def>, mid: Bufs, v: Visit, st: Status, after: Bufs, rest: seq<Def>)
    requires Record(before, done) == Some(mid)
    requires Outcome(mid, v, st, after)
    ensures st == AssertFailed ==> Record(before, done + v.defs + rest) == None
    ensures st != AssertFailed ==> Record(before, done + v.defs) == Some(after)
  {
    RecordConcat(before, done, v.defs);
    RecordConcat(before, done + v.defs, rest);
  }

  method ConstructNodeList(ns: Namespace, t: Table, m: Mem, h: Handle, parent: nat) returns (st: Status)
    requires ns.Valid() && parent < |ns.nodes|
    requires NamedTable(t) && h.Node? && 0 < h.size && NamedRow(h.enc)
    modifies ns
    ensures ns.Valid() && ns.Grown()
    ensures Outcome(old(ns.Bufs()), Walk(t, m, h, old(ns.paths[parent])), st, ns.Bufs())
    ensures st != AssertFailed ==>
              ns.FirstName() == FirstSeg(old(ns.FirstName()), Walk(t, m, h, old(ns.paths[parent])).defs)
    decreases h.size, 1
  {
    if !h.enc.inNamespace {
      return Success;
    }
    var name := GetObjectName(t, m, h);
    if name.None? {
      return InvalidParameter;
    }
    ObjectNameAccepted(t, m, h);
    AcceptedNameWalks(m, name.value, ns.paths[parent]);
    ghost var d := Def(Resolve(m, name.value, ns.paths[parent]), h.buf, Read(m, h.buf) == SCOPE_OP, h.size);
    ghost var rest := WalkChildren(t, m, h, d.path);
    ghost var before, first := ns.Bufs(), ns.FirstName();
    assert ([d] + rest.defs)[1..] == rest.defs;
    var node := ns.InsertNodeToTree(m, name.value, h.buf, parent);
    if node.None? {
      return AssertFailed;
    }
    assert ns.FirstName() == FirstSeg(first, [d]) by {
      assert [d][1..] == [];
    }
    FirstSegConcat(first, [d], rest.defs);
    st := ConstructNodeListForChild(ns, t, m, h, node.value);
  }

  method ConstructNodeListForChild(ns: Namespace, t: Table, m: Mem, h: Handle, parent: nat) returns (st: Status)
    requires ns.Valid() && parent < |ns.nodes|
    requires NamedTable(t) && h.Node? && 0 < h.size
    modifies ns
    ensures ns.Valid() && ns.Grown()
    ensures Outcome(old(ns.Bufs()), WalkChildren(t, m, h, old(ns.paths[parent])), st, ns.Bufs())
    ensures st != AssertFailed ==>
              ns.FirstName() == FirstSeg(old(ns.FirstName()), WalkChildren(t, m, h, old(ns.paths[parent])).defs)
    decreases h.size, 0
  {
    if !h.enc.hasChild {
      return Success;
    }
    var offset := GetOffsetAfterLastOption(t, m, h);
    if offset.None? {
      return InvalidParameter;
    }
    ListStartsInside(t, m, h);
    st := ConstructList(ns, t, m, h, offset.value, parent);
  }

  method GetOffsetAfterLastOption(t: Table, m: Mem, h: Handle) returns (r: Option<nat>)
    requires h.Node?
    ensures r == OffsetAfterLastOption(t, m, h)
  {
    var p := ParseOptionCommon(t, h.enc, m, h.buf, h.size, |h.enc.formats|);
    if p.Err? { return None; }
    var next := h.buf + p.data + p.size;
    if p.dtype == Opcode {
      var bytes, _ := GetPkgLength(m, next);
      next := next + bytes;
    }
    return Some(next);
  }

  method ConstructList(ns: Namespace, t: Table, m: Mem, h: Handle, first: nat, parent: nat) returns (st: Status)
    requires ns.Valid() && parent < |ns.nodes|
    requires NamedTable(t) && h.Node?
    modifies ns
    ensures ns.Valid() && ns.Grown()
    ensures Outcome(old(ns.Bufs()), Visit(true, WalkList(t, m, h, first, old(ns.paths[parent]))), st, ns.Bufs())
    ensures st != AssertFailed ==>
              ns.FirstName() == FirstSeg(old(ns.FirstName()), WalkList(t, m, h, first, old(ns.paths[parent])))
    decreases if first < h.End() then h.End() - first else 0, 2
  {
    hide Walk, WalkChildren;
    var cur := first;
    ghost var base := ns.paths[parent];
    ghost var all := WalkList(t, m, h, first, base);
    ghost var done: seq<Def> := [];
    assert Record(ns.Bufs(), []) == Some(ns.Bufs());
    while cur < h.End()
      invariant first <= cur
      invariant ns.Valid() && ns.Grown()
      invariant all == done + WalkList(t, m, h, cur, base)
      invariant Record(old(ns.Bufs()), done) == Some(ns.Bufs())
      invariant ns.FirstName() == FirstSeg(old(ns.FirstName()), done)
      decreases h.End() - cur
    {
      var c := OpenEx(t, m, cur, h.End() - cur);
      if c.None? {
        break;
      }
      SearchInTable(t, m, cur);
      ghost var v := Walk(t, m, c.value, base);
      ghost var rest := if v.ok then WalkList(t, m, h, cur + c.value.size, base) else [];
      ghost var mid := ns.Bufs();
      assert all == done + v.defs + rest;
      FirstSegConcat(old(ns.FirstName()), done, v.defs);
      var r := ConstructNodeList(ns, t, m, c.value, parent);
      OutcomeAppends(old(ns.Bufs()), done, mid, v, r, ns.Bufs(), rest);
      if r == AssertFailed {
        return AssertFailed;
      }
      done := done + v.defs;
      if r != Success {
        return Success;
      }
      cur := cur + c.value.size;
    }
    assert all == done;
    return Success;
  }

  // ----- path search -----

  /** The node the search starts from: the root, or the root's first child. */
  function SearchBase(fromRoot: bool, defs: seq<Def>): Option<Path> {
    if fromRoot then Some([])
    else
      match FirstSeg(None, defs)
      case None => None
      case Some(s) => Some([s])
  }

  lemma RecordedIsDefined(defs: seq<Def>, q: Path)
    requires Record(map[], defs).Some?
    ensures q in Record(map[], defs).value <==> exists x :: DefinedAt(defs, q, x)
    ensures forall x :: DefinedAt(defs, q, x) ==> q in Record(map[], defs).value && Record(map[], defs).value[q] == x
  {
    RecordSound(map[], defs, q);
  }

  /**
   Path search. When the walk succeeds and no path is defined twice, the answer is the one
   object, not a scope, that the walk defines at the requested path; and whatever is found
   lies inside the searched object.
   */
  method FindPath(t: Table, m: Mem, h: Handle, aml: Mem, fromRoot: bool) returns (st: Status, buf: Option<nat>)
    requires NamedTable(t) && h.Node? && 0 < h.size && NamedRow(h.enc)
    ensures var v := Walk(t, m, h, []);
            var base := SearchBase(fromRoot, v.defs);
            if !NoRedefinition(v.defs) then st == AssertFailed
            else if !v.ok then st == InvalidParameter
            else if base.None? then st == Success && buf == None
            else if !NullNameIsRoot(aml, 0, base.value) then st == AssertFailed
            else st == Success &&
                 forall x: nat :: buf == Some(x) <==> DefinedAt(v.defs, Resolve(aml, 0, base.value), x)
    ensures buf.Some? ==> st == Success && h.buf <= buf.value < h.End()
  {
    hide Walk, Record, FirstSeg, Linked, Indexed, ChildrenOk;
    buf := None;
    ghost var v := Walk(t, m, h, []);
    RecordFailsIff(map[], v.defs);
    var ns := new Namespace();
    ns.Rooted();
    st := ConstructNodeList(ns, t, m, h, 0);
    if st != Success {
      return;
    }
    ns.Rooted();
    var start := 0;
    if !fromRoot {
      var child := ns.FirstChild();
      if child.None? {
        return;
      }
      start := child.value;
    }
    ghost var base := SearchBase(fromRoot, v.defs);
    assert base == Some(ns.paths[start]);
    var header := AmlName.ParseSegHeader(aml, AmlName.PrefixLength(aml, 0));
    if header.NullName? && Read(aml, 0) != AmlName.ROOT_CHAR && AmlName.PrefixLength(aml, 0) == 0 && start != 0 {
      NullNameIsRootIff(aml, 0, ns.paths[start]);
      return AssertFailed, None;
    }
    NullNameIsRootIff(aml, 0, ns.paths[start]);
    var node := ns.FindNodeInTheTree(aml, 0, start, false);
    ghost var q := Resolve(aml, 0, base.value);
    RecordedIsDefined(v.defs, q);
    WalkInside(t, m, h, []);
    if node.Some? {
      buf := ns.GetBuf(node.value);
    }
  }

  /** Searching from the root never trips the walk's assertion; from a node, only the empty path does. */
  lemma SearchAsserts(aml: Mem, fromRoot: bool, defs: seq<Def>)
    requires SearchBase(fromRoot, defs).Some?
    ensures NullNameIsRoot(aml, 0, SearchBase(fromRoot, defs).value) <==> fromRoot || Read(aml, 0) != 0
  {
    NullNameIsRootIff(aml, 0, SearchBase(fromRoot, defs).value);
  }

  predicate IsRootPath(aml: Mem) {
    Read(aml, 0) == AmlName.ROOT_CHAR && Read(aml, 1) == 0
  }

  /** The object that searching `c` finds can be opened within `c`. */
  ghost predicate FoundIn(t: Table, m: Mem, c: Handle, q: Path, h: Handle)
    requires c.Node? && 0 < c.size
  {
    && DefinedAt(Walk(t, m, c, []).defs, q, h.buf)
    && h.buf <= c.End() && OpenEx(t, m, h.buf, c.End() - h.buf) == Some(h)
  }

  lemma EnumerationExtends(t: Table, m: Mem, parent: Handle, hs: seq<Handle>, c: Handle)
    requires Enumeration(t, m, parent, hs)
    requires GetChild(t, m, parent, Previous(hs, |hs|)) == Next(c)
    ensures Enumeration(t, m, parent, hs + [c])
  {
    var hs' := hs + [c];
    forall i {:trigger Previous(hs', i)} | 0 <= i < |hs'|
      ensures GetChild(t, m, parent, Previous(hs', i)) == Next(hs'[i])
    {
      assert Previous(hs', i) == Previous(hs, i);
    }
  }

  /** One child of the root: search it, and open what was found. */
  method SearchChild(t: Table, m: Mem, c: Handle, aml: Mem) returns (st: Status, out: Option<Handle>)
    requires NamedTable(t) && c.Node? && 0 < c.size && NamedRow(c.enc)
    ensures out.Some? ==> st == Success && FoundIn(t, m, c, Resolve(aml, 0, []), out.value)
    ensures st == Success && out.None? ==> forall x :: !FoundIn(t, m, c, Resolve(aml, 0, []), x)
  {
    var buf;
    out := None;
    st, buf := FindPath(t, m, c, aml, true);
    SearchAsserts(aml, true, Walk(t, m, c, []).defs);
    if st == Success && buf.Some? {
      out := OpenEx(t, m, buf.value, c.End() - buf.value);
    }
  }

  /**
   Searching a whole table: the children of the root handle are searched in enumeration order
   and the first object that can be opened is returned.
   */
  method FindPathFromRoot(t: Table, m: Mem, root: Handle, aml: Mem)
    returns (st: Status, out: Option<Handle>, ghost hs: seq<Handle>)
    requires NamedTable(t) && root.Root?
    ensures Enumeration(t, m, root, hs)
    ensures forall i :: 0 <= i < |hs| ==> hs[i].Node? && 0 < hs[i].size
    ensures IsRootPath(aml) ==> st == Success && out == Some(root)
    ensures !IsRootPath(aml) && out.Some? ==>
              st == Success && 0 < |hs| && FoundIn(t, m, hs[|hs| - 1], Resolve(aml, 0, []), out.value)
    ensures st == Success && out.None? ==> GetChild(t, m, root, Previous(hs, |hs|)) == Done
    ensures !IsRootPath(aml) && st == Success ==>
              forall i, x :: 0 <= i < |hs| - (if out.Some? then 1 else 0) ==> !FoundIn(t, m, hs[i], Resolve(aml, 0, []), x)
  {
    hide Walk, OpenEx, ChildPlace;
    hs := [];
    if IsRootPath(aml) {
      return Success, Some(root), hs;
    }
    var prev: Option<Handle> := None;
    while true
      invariant prev == Previous(hs, |hs|)
      invariant prev.Some? ==> Placed(t, m, root, prev.value) && prev.value.Node?
      invariant Enumeration(t, m, root, hs)
      invariant forall i :: 0 <= i < |hs| ==> hs[i].Node? && 0 < hs[i].size
      invariant forall i, x :: 0 <= i < |hs| ==> !FoundIn(t, m, hs[i], Resolve(aml, 0, []), x)
      decreases root.End() - (if prev.Some? then prev.value.End() else root.buf)
    {
      var r := GetChild(t, m, root, prev);
      if r.Invalid? {
        return InvalidParameter, None, hs;
      }
      if r.Done? {
        return Success, None, hs;
      }
      GetChildAdvances(t, m, root, prev);
      GetChildInTable(t, m, root, prev);
      EnumerationExtends(t, m, root, hs, r.child);
      hs := hs + [r.child];
      st, out := SearchChild(t, m, r.child, aml);
      if st != Success || out.Some? {
        return;
      }
      prev := Some(r.child);
    }
  }

  lemma GetChildInTable(t: Table, m: Mem, parent: Handle, prev: Option<Handle>)
    requires NamedTable(t) && GetChild(t, m, parent, prev).Next?
    ensures var c := GetChild(t, m, parent, prev).child; c.Node? && NamedRow(c.enc)
  {
    SearchInTable(t, m, ChildPlace(t, m, parent, prev).pos);
  }
}

/**
 The walk leaves nothing out: the definitions of an object list are those of its objects, one after
 the other, and a search finds the object at the end of any chain of nested scopes.
 */
module AmlWalkComplete {
  import opened Bytes
  import opened AmlParse
  import opened AmlChild
  import opened AmlNamespace
  import opened AmlWalk
  import E = AmlEncode
  import AmlName

  // ----- the objects of a list -----

  /** Where object `i` of a list starts. */
  function StartOf(first: nat, hs: seq<Handle>, i: nat): nat
    requires i <= |hs|
  {
    if i == 0 then first else hs[i - 1].End()
  }

  /** `hs` are the objects of the list of `h` from `first` on, each behind the one before. */
  ghost predicate Chain(t: Table, m: Mem, h: Handle, first: nat, hs: seq<Handle>) {
    Nodes(hs) && forall i :: 0 <= i < |hs| ==> Link(t, m, h, first, hs, i)
  }

  predicate Nodes(hs: seq<Handle>) {
    forall i :: 0 <= i < |hs| ==> hs[i].Node? && 0 < hs[i].size
  }

  ghost predicate Link(t: Table, m: Mem, h: Handle, first: nat, hs: seq<Handle>, i: nat)
    requires i < |hs|
  {
    hs[i].buf < h.End() && hs[i].buf == StartOf(first, hs, i) && OpenEx(t, m, hs[i].buf, h.End() - hs[i].buf) == Some(hs[i])
  }

  /** The walks of the first `n` objects succeed. */
  ghost predicate WalksOk(t: Table, m: Mem, hs: seq<Handle>, n: nat, base: Path)
    requires n <= |hs| && Nodes(hs)
  {
    forall i :: 0 <= i < n ==> Walk(t, m, hs[i], base).ok
  }

  /** The definitions of the first `n` objects, one object after the other. */
  function DefsOf(t: Table, m: Mem, hs: seq<Handle>, n: nat, base: Path): seq<Def>
    requires n <= |hs| && Nodes(hs)
  {
    if n == 0 then [] else DefsOf(t, m, hs, n - 1, base) + Walk(t, m, hs[n - 1], base).defs
  }

  /** While the walks succeed, the walk of the list goes on with the next object. */
  lemma {:induction false} ListGoesOn(t: Table, m: Mem, h: Handle, first: nat, hs: seq<Handle>, n: nat, base: Path)
    requires h.Node? && Chain(t, m, h, first, hs) && n <= |hs| && WalksOk(t, m, hs, n, base)
    ensures WalkList(t, m, h, first, base) == DefsOf(t, m, hs, n, base) + WalkList(t, m, h, StartOf(first, hs, n), base)
  {
    hide Walk, OpenEx, StartOf;
    if n != 0 {
      ListGoesOn(t, m, h, first, hs, n - 1, base);
      assert Link(t, m, h, first, hs, n - 1);
      StartsBehind(first, hs, n);
      OneMore(t, m, h, hs[n - 1], base);
      ghost var done, rest := DefsOf(t, m, hs, n - 1, base), WalkList(t, m, h, hs[n - 1].End(), base);
      assert done + (Walk(t, m, hs[n - 1], base).defs + rest) == (done + Walk(t, m, hs[n - 1], base).defs) + rest;
    } else {
      StartsFirst(first, hs);
    }
  }

  lemma StartsFirst(first: nat, hs: seq<Handle>)
    ensures StartOf(first, hs, 0) == first
  {
  }

  lemma StartsBehind(first: nat, hs: seq<Handle>, n: nat)
    requires 0 < n <= |hs|
    ensures StartOf(first, hs, n) == hs[n - 1].End()
  {
  }

  /** One object of a list and what follows it. */
  lemma OneMore(t: Table, m: Mem, h: Handle, c: Handle, base: Path)
    requires h.Node? && c.Node? && 0 < c.size && c.buf < h.End() && OpenEx(t, m, c.buf, h.End() - c.buf) == Some(c)
    ensures WalkList(t, m, h, c.buf, base)
         == Walk(t, m, c, base).defs + if Walk(t, m, c, base).ok then WalkList(t, m, h, c.End(), base) else []
  {
    hide Walk, OpenEx;
  }

  /** The walk of a list is exactly the walks of its objects, up to the first that fails or cannot be opened. */
  lemma ListIs(t: Table, m: Mem, h: Handle, first: nat, hs: seq<Handle>, base: Path)
    requires h.Node? && Chain(t, m, h, first, hs)
    requires 0 < |hs| ==> WalksOk(t, m, hs, |hs| - 1, base)
    requires var end := StartOf(first, hs, |hs|);
             || (0 < |hs| && !Walk(t, m, hs[|hs| - 1], base).ok)
             || end >= h.End() || OpenEx(t, m, end, h.End() - end).None?
    ensures WalkList(t, m, h, first, base) == DefsOf(t, m, hs, |hs|, base)
  {
    hide Walk, OpenEx, StartOf, WalkList, Chain, Nodes, WalksOk, DefsOf;
    NodesOf(t, m, h, first, hs);
    if 0 < |hs| && !Walk(t, m, hs[|hs| - 1], base).ok {
      ListStops(t, m, h, first, hs, base);
    } else {
      AllWalk(t, m, hs, base);
      ListGoesOn(t, m, h, first, hs, |hs|, base);
      ListEnds(t, m, h, StartOf(first, hs, |hs|), base);
      assert DefsOf(t, m, hs, |hs|, base) + [] == DefsOf(t, m, hs, |hs|, base);
    }
  }

  lemma NodesOf(t: Table, m: Mem, h: Handle, first: nat, hs: seq<Handle>)
    requires Chain(t, m, h, first, hs)
    ensures Nodes(hs) && (0 < |hs| ==> hs[|hs| - 1].Node? && 0 < hs[|hs| - 1].size)
  {
  }

  lemma ListStops(t: Table, m: Mem, h: Handle, first: nat, hs: seq<Handle>, base: Path)
    requires h.Node? && Chain(t, m, h, first, hs) && 0 < |hs|
    requires WalksOk(t, m, hs, |hs| - 1, base) && !Walk(t, m, hs[|hs| - 1], base).ok
    ensures WalkList(t, m, h, first, base) == DefsOf(t, m, hs, |hs|, base)
  {
    hide Walk, OpenEx, StartOf, WalkList;
    ListGoesOn(t, m, h, first, hs, |hs| - 1, base);
    assert Link(t, m, h, first, hs, |hs| - 1);
    OneMore(t, m, h, hs[|hs| - 1], base);
  }

  lemma AllWalk(t: Table, m: Mem, hs: seq<Handle>, base: Path)
    requires Nodes(hs) && (0 < |hs| ==> WalksOk(t, m, hs, |hs| - 1, base) && Walk(t, m, hs[|hs| - 1], base).ok)
    ensures WalksOk(t, m, hs, |hs|, base)
  {
    hide Walk;
  }

  lemma ListEnds(t: Table, m: Mem, h: Handle, end: nat, base: Path)
    requires h.Node? && (end >= h.End() || OpenEx(t, m, end, h.End() - end).None?)
    ensures WalkList(t, m, h, end, base) == []
  {
    hide OpenEx, Walk;
  }

  /** Every definition of an object whose predecessors walk is in the list. */
  lemma ObjectIsWalked(t: Table, m: Mem, h: Handle, first: nat, hs: seq<Handle>, base: Path, d: Def)
    requires h.Node? && Chain(t, m, h, first, hs) && 0 < |hs| && WalksOk(t, m, hs, |hs| - 1, base)
    requires d in Walk(t, m, hs[|hs| - 1], base).defs
    ensures d in WalkList(t, m, h, first, base)
  {
    hide Walk, OpenEx, StartOf, WalkList;
    ListGoesOn(t, m, h, first, hs, |hs| - 1, base);
    assert Link(t, m, h, first, hs, |hs| - 1);
    OneMore(t, m, h, hs[|hs| - 1], base);
  }

  // ----- nested scopes -----

  /** An object with a name and an object list. */
  ghost predicate Scopes(t: Table, m: Mem, h: Handle) {
    && h.Node? && 0 < h.size && h.enc.inNamespace && h.enc.hasChild
    && ObjectName(t, m, h).Some? && OffsetAfterLastOption(t, m, h).Some?
  }

  /** `c` is in the object list of `h`, and the walk of `h` gets to it. */
  ghost predicate Contains(t: Table, m: Mem, h: Handle, c: Handle, path: Path)
    requires Scopes(t, m, h)
  {
    exists hs: seq<Handle> ::
      && Chain(t, m, h, OffsetAfterLastOption(t, m, h).value, hs)
      && 0 < |hs| && hs[|hs| - 1] == c && WalksOk(t, m, hs, |hs| - 1, path)
  }

  ghost predicate Named(t: Table, m: Mem, h: Handle) {
    h.Node? && 0 < h.size && h.enc.inNamespace && ObjectName(t, m, h).Some?
  }

  /** The path of an object that is walked with `base` around it. */
  function PathIn(t: Table, m: Mem, h: Handle, base: Path): Path
    requires h.Node? && ObjectName(t, m, h).Some?
  {
    Resolve(m, ObjectName(t, m, h).value, base)
  }

  /** Each of `ps` contains the next; all have names. */
  ghost predicate Nested(t: Table, m: Mem, ps: seq<Handle>, base: Path)
    decreases |ps|
  {
    && 0 < |ps| && Named(t, m, ps[0])
    && (1 < |ps| ==>
          && Scopes(t, m, ps[0]) && Contains(t, m, ps[0], ps[1], PathIn(t, m, ps[0], base))
          && Nested(t, m, ps[1..], PathIn(t, m, ps[0], base)))
  }

  /** The names of the nested objects, each resolved in the one around it. */
  ghost function PathOf(t: Table, m: Mem, ps: seq<Handle>, base: Path): Path
    requires Nested(t, m, ps, base)
    decreases |ps|
  {
    var q := PathIn(t, m, ps[0], base);
    if |ps| == 1 then q else PathOf(t, m, ps[1..], q)
  }

  /** The innermost object is defined at the path that the nesting gives it. */
  lemma {:induction false} NestedIsDefined(t: Table, m: Mem, ps: seq<Handle>, base: Path)
    requires Nested(t, m, ps, base)
    ensures var h := ps[|ps| - 1];
            h.Node? && Def(PathOf(t, m, ps, base), h.buf, Read(m, h.buf) == 0x10, h.size) in Walk(t, m, ps[0], base).defs
    decreases |ps|
  {
    hide ObjectName, OffsetAfterLastOption, Resolve, OpenEx;
    var q := PathIn(t, m, ps[0], base);
    if 1 < |ps| {
      NestedIsDefined(t, m, ps[1..], q);
      var first := OffsetAfterLastOption(t, m, ps[0]).value;
      var hs :| Chain(t, m, ps[0], first, hs) && 0 < |hs| && hs[|hs| - 1] == ps[1] && WalksOk(t, m, hs, |hs| - 1, q);
      var h := ps[|ps| - 1];
      var d := Def(PathOf(t, m, ps, base), h.buf, Read(m, h.buf) == 0x10, h.size);
      assert ps[1..][|ps[1..]| - 1] == h;
      ObjectIsWalked(t, m, ps[0], first, hs, q, d);
      InScope(t, m, ps[0], base, d);
    }
  }

  lemma InScope(t: Table, m: Mem, h: Handle, base: Path, d: Def)
    requires Scopes(t, m, h)
    requires d in WalkList(t, m, h, OffsetAfterLastOption(t, m, h).value, PathIn(t, m, h, base))
    ensures d in Walk(t, m, h, base).defs
  {
    hide ObjectName, OffsetAfterLastOption, Resolve, WalkList;
  }

  /** The walk of an object fails exactly if it should have a name or an object list and that cannot be found. */
  lemma WalkOkIff(t: Table, m: Mem, h: Handle, base: Path)
    requires h.Node? && 0 < h.size
    ensures Walk(t, m, h, base).ok <==>
              !h.enc.inNamespace ||
              (ObjectName(t, m, h).Some? && (!h.enc.hasChild || OffsetAfterLastOption(t, m, h).Some?))
  {
    hide ObjectName, OffsetAfterLastOption, Resolve, WalkList;
  }

  /** Only scopes are marked as such, and they are the objects that start with the scope opcode. */
  lemma {:induction false} ScopesAreMarked(t: Table, m: Mem, h: Handle, base: Path)
    requires h.Node? && 0 < h.size
    ensures forall d :: d in Walk(t, m, h, base).defs ==> (d.scope <==> Read(m, d.buf) == 0x10)
    decreases h.size, 1
  {
    hide ObjectName, OpenEx, Resolve;
    if h.enc.inNamespace && ObjectName(t, m, h).Some? && h.enc.hasChild && OffsetAfterLastOption(t, m, h).Some? {
      ListStartsInside(t, m, h);
      ListScopesMarked(t, m, h, OffsetAfterLastOption(t, m, h).value, PathIn(t, m, h, base));
    }
  }

  lemma {:induction false} ListScopesMarked(t: Table, m: Mem, h: Handle, cur: nat, base: Path)
    requires h.Node? && h.buf < cur
    ensures forall d :: d in WalkList(t, m, h, cur, base) ==> (d.scope <==> Read(m, d.buf) == 0x10)
    decreases if cur < h.End() then h.End() - cur else 0, 2
  {
    hide Walk;
    if cur < h.End() && OpenEx(t, m, cur, h.End() - cur).Some? {
      var c := OpenEx(t, m, cur, h.End() - cur).value;
      ScopesAreMarked(t, m, c, base);
      ListScopesMarked(t, m, h, cur + c.size, base);
    }
  }

  /**
   Searching the path of the innermost object of a nesting finds that object, unless it is a scope
   or the search fails as a whole.
   */
  method FindNested(t: Table, m: Mem, h: Handle, aml: Mem, ghost ps: seq<Handle>) returns (st: Status, buf: Option<nat>)
    requires NamedTable(t) && h.Node? && 0 < h.size && NamedRow(h.enc)
    requires Nested(t, m, ps, []) && ps[0] == h && Resolve(aml, 0, []) == PathOf(t, m, ps, [])
    requires Read(m, ps[|ps| - 1].buf) != 0x10
    ensures Walk(t, m, h, []).ok && NoRedefinition(Walk(t, m, h, []).defs) ==>
              st == Success && buf == Some(ps[|ps| - 1].buf)
    ensures !NoRedefinition(Walk(t, m, h, []).defs) ==> st == AssertFailed
    ensures NoRedefinition(Walk(t, m, h, []).defs) && !Walk(t, m, h, []).ok ==> st == InvalidParameter
  {
    hide Walk, Resolve;
    NestedIsDefined(t, m, ps, []);
    st, buf := FindPath(t, m, h, aml, true);
    ghost var defs := Walk(t, m, h, []).defs;
    SearchAsserts(aml, true, defs);
    if NoRedefinition(defs) && Walk(t, m, h, []).ok {
      DefinesLast(defs, PathOf(t, m, ps, []), ps[|ps| - 1]);
    }
  }

  lemma DefinesLast(defs: seq<Def>, q: Path, h: Handle)
    requires Def(q, h.buf, false, h.size) in defs
    ensures DefinedAt(defs, q, h.buf)
  {
    var i :| 0 <= i < |defs| && defs[i] == Def(q, h.buf, false, h.size);
  }

  // ----- lists of written objects -----

  function ObjsBytes(xs: seq<E.Obj>): Mem {
    if xs == [] then [] else ObjsBytes(xs[..|xs| - 1]) + E.ObjBytes(xs[|xs| - 1])
  }

  /** The handles of objects written one after the other from `first` on. */
  function HandlesOf(first: nat, xs: seq<E.Obj>): (hs: seq<Handle>)
    ensures |hs| == |xs|
  {
    if xs == [] then []
    else
      var x := xs[|xs| - 1];
      HandlesOf(first, xs[..|xs| - 1]) + [Handle.Node(first + |ObjsBytes(xs[..|xs| - 1])|, |E.ObjBytes(x)|, x.enc)]
  }

  /** Objects written one after the other are the objects of the list. */
  lemma {:induction false} WrittenChain(t: Table, m: Mem, h: Handle, first: nat, xs: seq<E.Obj>)
    requires forall i :: 0 <= i < |xs| ==> E.ObjOk(t, xs[i])
    requires E.HasAt(m, first, ObjsBytes(xs)) && first + |ObjsBytes(xs)| <= h.End()
    ensures Chain(t, m, h, first, HandlesOf(first, xs))
    ensures StartOf(first, HandlesOf(first, xs), |xs|) == first + |ObjsBytes(xs)|
    decreases |xs|
  {
    hide E.HasAt, E.ObjOk, OpenEx, E.ObjBytes, StartOf;
    var hs := HandlesOf(first, xs);
    if xs == [] {
      StartsFirst(first, hs);
    } else {
      var n := |xs| - 1;
      var init, x := xs[..n], xs[n];
      var before := HandlesOf(first, init);
      E.HasParts(m, first, ObjsBytes(init), E.ObjBytes(x));
      WrittenChain(t, m, h, first, init);
      var o := first + |ObjsBytes(init)|;
      E.OpensAs(t, m, o, h.End() - o, x);
      forall i | 0 <= i < |hs|
        ensures Link(t, m, h, first, hs, i)
      {
        SameStart(first, before, hs, i);
        if i < n {
          assert Link(t, m, h, first, before, i);
        }
      }
      StartsBehind(first, hs, |xs|);
    }
  }

  lemma SameStart(first: nat, xs: seq<Handle>, ys: seq<Handle>, i: nat)
    requires i <= |xs| <= |ys| && ys[..|xs|] == xs
    ensures StartOf(first, ys, i) == StartOf(first, xs, i)
  {
    assert 0 < i ==> ys[i - 1] == ys[..|xs|][i - 1];
  }

  // ----- enumerating what was written -----

  /** Searching a list at an object finds it. */
  lemma ObjectIsFound(t: Table, m: Mem, h: Handle, o: nat)
    requires o < h.End() && OpenEx(t, m, o, h.End() - o).Some?
    ensures ChildInBuffer(t, m, h, o) == Pos(o)
  {
    hide ObjectSize;
  }

  /** The children of a table whose body consists of objects are these, in order, and then there are no more. */
  lemma RootEnumerates(t: Table, m: Mem, root: Handle, hs: seq<Handle>, i: nat)
    requires root.Root? && Chain(t, m, root, root.buf, hs) && StartOf(root.buf, hs, |hs|) == root.End() && i <= |hs|
    ensures GetChild(t, m, root, Previous(hs, i)) == if i < |hs| then Next(hs[i]) else Done
  {
    hide OpenEx;
    if i < |hs| {
      assert Link(t, m, root, root.buf, hs, i);
      ObjectIsFound(t, m, root, hs[i].buf);
    }
  }

  /** The same for the object list of an object, from any of its members on. */
  lemma ListEnumerates(t: Table, m: Mem, h: Handle, hs: seq<Handle>, i: nat)
    requires h.Node? && h.enc.hasChild && OffsetAfterLastOption(t, m, h).Some?
    requires Chain(t, m, h, OffsetAfterLastOption(t, m, h).value, hs) && 0 < i <= |hs|
    requires StartOf(OffsetAfterLastOption(t, m, h).value, hs, |hs|) == h.End()
    ensures GetChild(t, m, h, Some(hs[i - 1])) == if i < |hs| then Next(hs[i]) else Done
  {
    hide OpenEx, ParseOption, OffsetAfterLastOption;
    var first := OffsetAfterLastOption(t, m, h).value;
    BehindStart(t, m, h, first, hs, i - 1);
    BehindOptions(t, m, h, hs[i - 1].buf, 1);
    StartsBehind(first, hs, i);
    if i < |hs| {
      assert Link(t, m, h, first, hs, i);
      ObjectIsFound(t, m, h, hs[i].buf);
    }
  }

  lemma {:induction false} BehindStart(t: Table, m: Mem, h: Handle, first: nat, hs: seq<Handle>, i: nat)
    requires Chain(t, m, h, first, hs) && i < |hs|
    ensures first <= hs[i].buf
  {
    hide OpenEx;
    assert Link(t, m, h, first, hs, i);
    if 0 < i {
      BehindStart(t, m, h, first, hs, i - 1);
    }
  }

  /** Behind the start of the list there is no option. */
  lemma {:induction false} BehindOptions(t: Table, m: Mem, h: Handle, prev: nat, k: nat)
    requires h.Node? && OffsetAfterLastOption(t, m, h).Some? && OffsetAfterLastOption(t, m, h).value <= prev
    requires 1 <= k
    ensures ChildInOptions(t, m, h, prev, k) == NoMore
    decreases |h.enc.formats| + 1 - k
  {
    hide ParseOption, OffsetAfterLastOption;
    if k <= |h.enc.formats| {
      OptionBeforeList(t, m, h, k);
      BehindOptions(t, m, h, prev, k + 1);
    }
  }
}

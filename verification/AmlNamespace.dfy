/**
 The namespace tree. Nodes live in an arena and refer to each other by position, as the
 driver's nodes do by pointer; a node's path is the list of segments from the root to it.
 */
module AmlNamespace {
  import opened Bytes
  import opened AmlName

  type Seg = seq<byte>
  type Path = seq<Seg>

  const SCOPE_OP: byte := 0x10

  // ----- the path that a NameString denotes -----

  function SegAt(m: Mem, o: nat): Seg {
    [At(m, o, 0), At(m, o, 1), At(m, o, 2), At(m, o, 3)]
  }

  function Segs(m: Mem, o: nat, count: nat): (r: Path)
    ensures |r| == count
    decreases count
  {
    if count == 0 then [] else [SegAt(m, o)] + Segs(m, o + SEG_SIZE, count - 1)
  }

  /** The ancestor `n` levels up; going up from the root stays at the root. */
  function Ascend(base: Path, n: nat): Path {
    if n <= |base| then base[..|base| - n] else []
  }

  /** Where the segments of the name at `o` start from, seen from the node at `base`. */
  function Origin(m: Mem, o: nat, base: Path): Path {
    if Read(m, o) == ROOT_CHAR then [] else Ascend(base, ParentRun(m, o))
  }

  /** The absolute path of the name at `o`, seen from the node at `base`. */
  function Resolve(m: Mem, o: nat, base: Path): Path {
    var p := PrefixLength(m, o);
    match ParseSegHeader(m, o + p)
    case NullName => Origin(m, o, base)
    case SegHeader(h, n) => Origin(m, o, base) + Segs(m, o + p + h, n)
  }

  /** The walk's assertion: a name without segments denotes the root. */
  predicate NullNameIsRoot(m: Mem, o: nat, base: Path) {
    ParseSegHeader(m, o + PrefixLength(m, o)).NullName? ==> Origin(m, o, base) == []
  }

  /** Every name that the size function accepts satisfies the walk's assertion, from any node. */
  lemma AcceptedNameWalks(m: Mem, o: nat, base: Path)
    requires NameSize(m, o).Some?
    ensures NullNameIsRoot(m, o, base)
  {}

  /** Exactly the names that start below the root and have no segments break the assertion. */
  lemma NullNameIsRootIff(m: Mem, o: nat, base: Path)
    ensures NullNameIsRoot(m, o, base) <==>
              (ParseSegHeader(m, o + PrefixLength(m, o)).NullName? && Read(m, o) != ROOT_CHAR
               ==> |base| <= ParentRun(m, o))
  {}

  // ----- the tree -----

  datatype Node = Node(name: Seg, parent: Option<nat>, children: seq<nat>, buf: Option<nat>)

  /** Parents precede their children, and a path extends the parent's path by the name. */
  ghost predicate Linked(nodes: seq<Node>, paths: seq<Path>) {
    && |nodes| == |paths| > 0
    && paths[0] == [] && nodes[0].parent == None
    && forall i :: 0 < i < |nodes| ==> LinkedTo(nodes, paths, i)
  }

  ghost predicate LinkedTo(nodes: seq<Node>, paths: seq<Path>, i: nat)
    requires i < |nodes| == |paths|
  {
    && nodes[i].parent.Some? && nodes[i].parent.value < i
    && i in nodes[nodes[i].parent.value].children
    && paths[i] == paths[nodes[i].parent.value] + [nodes[i].name]
  }

  /** A path determines its node. */
  ghost predicate Indexed(paths: seq<Path>, index: map<Path, nat>) {
    && (forall i :: 0 <= i < |paths| ==> paths[i] in index && index[paths[i]] == i)
    && (forall q :: q in index ==> index[q] < |paths| && paths[index[q]] == q)
  }

  ghost predicate IsChild(nodes: seq<Node>, i: nat, c: nat) {
    0 < c < |nodes| && nodes[c].parent == Some(i)
  }

  ghost predicate ChildrenOk(nodes: seq<Node>) {
    forall i, k :: 0 <= i < |nodes| && 0 <= k < |nodes[i].children| ==> IsChild(nodes, i, nodes[i].children[k])
  }

  /** AmlCreateNode and the insertion at the tail of the parent's children. */
  function WithChild(nodes: seq<Node>, seg: Seg, parent: nat): (r: seq<Node>)
    requires parent < |nodes|
    ensures |r| == |nodes| + 1
    ensures r[|nodes|] == Node(seg, Some(parent), [], None)
    ensures forall i :: 0 <= i < |nodes| && i != parent ==> r[i] == nodes[i]
    ensures r[parent] == nodes[parent].(children := nodes[parent].children + [|nodes|])
  {
    nodes[parent := nodes[parent].(children := nodes[parent].children + [|nodes|])] + [Node(seg, Some(parent), [], None)]
  }

  lemma WithChildLinked(nodes: seq<Node>, paths: seq<Path>, seg: Seg, parent: nat)
    requires Linked(nodes, paths) && parent < |nodes|
    ensures Linked(WithChild(nodes, seg, parent), paths + [paths[parent] + [seg]])
  {
    var ns, ps := WithChild(nodes, seg, parent), paths + [paths[parent] + [seg]];
    forall i | 0 < i < |ns| ensures LinkedTo(ns, ps, i) {
      if i < |nodes| {
        assert LinkedTo(nodes, paths, i);
      } else {
        assert ns[parent].children[|nodes[parent].children|] == i;
      }
    }
  }

  lemma WithChildChildrenOk(nodes: seq<Node>, seg: Seg, parent: nat)
    requires ChildrenOk(nodes) && parent < |nodes|
    ensures ChildrenOk(WithChild(nodes, seg, parent))
  {
    var ns := WithChild(nodes, seg, parent);
    forall i, k | 0 <= i < |ns| && 0 <= k < |ns[i].children| ensures IsChild(ns, i, ns[i].children[k]) {
      if i < |nodes| && k < |nodes[i].children| {
        assert IsChild(nodes, i, nodes[i].children[k]);
      }
    }
  }

  class Namespace {
    var nodes: seq<Node>
    ghost var paths: seq<Path>
    ghost var index: map<Path, nat>

    ghost predicate Valid()
      reads this
    {
      Linked(nodes, paths) && Indexed(paths, index) && ChildrenOk(nodes)
    }

    /** The tree as a map: the object recorded at each path that has one. */
    ghost function Bufs(): map<Path, nat>
      reads this
      requires Valid()
    {
      map q | q in index && nodes[index[q]].buf.Some? :: nodes[index[q]].buf.value
    }

    /** The name of the root's first child. */
    function FirstName(): Option<Seg>
      reads this
      requires Valid()
    {
      if nodes[0].children == [] then None
      else
        assert IsChild(nodes, 0, nodes[0].children[0]);
        Some(nodes[nodes[0].children[0]].name)
    }

    /** The tree has only grown since: every node keeps its path. */
    twostate predicate Grown()
      reads this
    {
      old(paths) <= paths
    }

    constructor ()
      ensures Valid() && fresh(this) && Bufs() == map[] && FirstName() == None
      ensures paths == [[]] && index.Keys == {[]}
    {
      nodes := [Node([ROOT_CHAR, 0, 0, 0], None, [], None)];
      paths := [[]];
      index := map[[] := 0];
    }

    lemma ChildByPath(parent: nat, seg: Seg)
      requires Valid() && parent < |nodes|
      requires paths[parent] + [seg] in index
      ensures index[paths[parent] + [seg]] in nodes[parent].children
      ensures nodes[index[paths[parent] + [seg]]].name == seg
    {
      var q := paths[parent] + [seg];
      var j := index[q];
      assert j != 0 && LinkedTo(nodes, paths, j);
      var p := nodes[j].parent.value;
      assert paths[p] == q[..|q| - 1] == paths[parent];
      assert nodes[j].name == q[|q| - 1];
      assert index[paths[p]] == p && index[paths[parent]] == parent;
    }

    lemma PathKnown(i: nat)
      requires Valid() && i < |nodes|
      ensures paths[i] in index && index[paths[i]] == i
    {}

    lemma Rooted()
      requires Valid()
      ensures 0 < |nodes| == |paths| && paths[0] == []
    {}

    /** Siblings have distinct names. */
    lemma SiblingsDistinct(i: nat, k: nat, l: nat)
      requires Valid() && i < |nodes|
      requires k < l < |nodes[i].children| && nodes[i].children[k] != nodes[i].children[l]
      ensures IsChild(nodes, i, nodes[i].children[k]) && IsChild(nodes, i, nodes[i].children[l])
      ensures nodes[nodes[i].children[k]].name != nodes[nodes[i].children[l]].name
    {
      var c, d := nodes[i].children[k], nodes[i].children[l];
      assert IsChild(nodes, i, c) && IsChild(nodes, i, d) && LinkedTo(nodes, paths, c) && LinkedTo(nodes, paths, d);
      assert index[paths[c]] == c && index[paths[d]] == d;
    }

    /** Parent links lead to the root: each shortens the path by one, and only the root has none. */
    lemma ParentLinksReachRoot(i: nat)
      requires Valid() && i < |nodes|
      ensures i == 0 <==> paths[i] == []
      ensures nodes[i].parent.None? <==> i == 0
      ensures i != 0 ==> nodes[i].parent.value < i && paths[nodes[i].parent.value] == Ascend(paths[i], 1)
    {
      assert index[paths[i]] == i && index[paths[0]] == 0;
      assert i != 0 ==> LinkedTo(nodes, paths, i);
    }

    method AddChild(seg: Seg, parent: nat) returns (r: nat)
      requires Valid() && parent < |nodes|
      requires paths[parent] + [seg] !in index
      modifies this
      ensures Valid() && Grown() && Bufs() == old(Bufs())
      ensures r == old(|nodes|) && |nodes| == r + 1 && paths[r] == old(paths[parent]) + [seg]
      ensures index == old(index)[paths[r] := r]
      ensures FirstName() == if parent == 0 && old(FirstName()).None? then Some(seg) else old(FirstName())
    {
      hide LinkedTo;
      r := |nodes|;
      ghost var q := paths[parent] + [seg];
      WithChildLinked(nodes, paths, seg, parent);
      WithChildChildrenOk(nodes, seg, parent);
      assert nodes[0].children != [] ==> IsChild(nodes, 0, nodes[0].children[0]);
      nodes := WithChild(nodes, seg, parent);
      paths := paths + [q];
      index := index[q := r];
    }

    method FindNodeInThis(seg: Seg, parent: nat, create: bool) returns (r: Option<nat>)
      requires Valid() && parent < |nodes|
      modifies this
      ensures Valid() && Grown() && Bufs() == old(Bufs())
      ensures r.Some? <==> create || old(paths[parent]) + [seg] in old(index)
      ensures r.Some? ==> r.value < |nodes| && paths[r.value] == old(paths[parent]) + [seg]
      ensures !create ==> nodes == old(nodes) && paths == old(paths) && index == old(index)
      ensures index.Keys == old(index.Keys) + if create then {old(paths[parent]) + [seg]} else {}
      ensures FirstName() == if create && parent == 0 && old(FirstName()).None? then Some(seg) else old(FirstName())
    {
      var current := 0;
      while current < |nodes[parent].children|
        invariant current <= |nodes[parent].children|
        invariant Valid() && nodes == old(nodes) && paths == old(paths) && index == old(index)
        invariant forall k :: 0 <= k < current ==>
                    IsChild(nodes, parent, nodes[parent].children[k]) && nodes[nodes[parent].children[k]].name != seg
      {
        var c := nodes[parent].children[current];
        assert IsChild(nodes, parent, c) && LinkedTo(nodes, paths, c);
        if nodes[c].name == seg {
          return Some(c);
        }
        current := current + 1;
      }
      if paths[parent] + [seg] in index {
        ChildByPath(parent, seg);
        assert false;
      }
      if !create {
        return None;
      }
      var c := AddChild(seg, parent);
      return Some(c);
    }

    lemma {:induction false} PrefixClosed(q: Path, k: nat)
      requires Valid() && q in index && k <= |q|
      ensures q[..k] in index
      decreases |q|
    {
      if k == |q| {
        assert q[..k] == q;
      } else {
        var j := index[q];
        assert LinkedTo(nodes, paths, j);
        var up := paths[nodes[j].parent.value];
        assert q[..k] == up[..k];
        PrefixClosed(up, k);
      }
    }

    /** Nothing lies below a node that is missing. */
    lemma MissingSeg(q: Path, rest: Path)
      requires Valid() && q !in index
      ensures q + rest !in index
    {
      assert (q + rest)[..|q|] == q;
      if q + rest in index {
        PrefixClosed(q + rest, |q|);
      }
    }

    lemma OnlyRoot()
      requires Valid() && FirstName().None?
      ensures |nodes| == 1
    {
      assert 1 < |nodes| ==> LinkedTo(nodes, paths, 1);
    }

    /** The prefix of the name: to the root, or up once for every parent prefix. */
    method FindOrigin(m: Mem, o: nat, parent: nat) returns (cur: nat, b: nat)
      requires Valid() && parent < |nodes|
      ensures cur < |nodes| && paths[cur] == Origin(m, o, paths[parent])
      ensures b == o + PrefixLength(m, o)
    {
      b := o;
      if Read(m, b) == ROOT_CHAR {
        return 0, b + 1;
      }
      cur := parent;
      while Read(m, b) == PARENT_CHAR
        invariant o <= b && b <= if o <= |m| then |m| else o
        invariant cur < |nodes|
        invariant ParentRun(m, o) == b - o + ParentRun(m, b)
        invariant paths[cur] == Ascend(paths[parent], b - o)
        decreases |m| - b
      {
        ParentLinksReachRoot(cur);
        if nodes[cur].parent.Some? {
          cur := nodes[cur].parent.value;
        } else {
          assert cur == 0;
        }
        b := b + 1;
      }
    }

    /** Descends along the segments after the first, creating missing nodes when asked to. */
    method FindRest(m: Mem, first: nat, from: nat, count: nat, create: bool) returns (r: Option<nat>)
      requires Valid() && 0 < from < |nodes|
      modifies this
      ensures Valid() && Grown() && Bufs() == old(Bufs()) && FirstName() == old(FirstName())
      ensures r.Some? <==> create || old(paths[from]) + Segs(m, first, count) in old(index)
      ensures r.Some? ==> r.value < |nodes| && paths[r.value] == old(paths[from]) + Segs(m, first, count)
      ensures !create ==> nodes == old(nodes) && paths == old(paths) && index == old(index)
    {
      hide Indexed, ChildrenOk;
      ghost var path := paths[from] + Segs(m, first, count);
      var b: nat, cur: nat, left: nat := first, from, count;
      while 0 < left
        invariant 0 < cur < |nodes|
        invariant Valid() && Grown() && Bufs() == old(Bufs()) && FirstName() == old(FirstName())
        invariant path == paths[cur] + Segs(m, b, left)
        invariant !create ==> nodes == old(nodes) && paths == old(paths) && index == old(index)
      {
        ghost var seg, here, rest := SegAt(m, b), paths[cur], Segs(m, b + SEG_SIZE, left - 1);
        assert path == (here + [seg]) + rest;
        if here + [seg] !in index { MissingSeg(here + [seg], rest); }
        var next := FindNodeInThis(SegAt(m, b), cur, create);
        if next.None? { return None; }
        cur, b, left := next.value, b + SEG_SIZE, left - 1;
      }
      assert path == paths[cur];
      PathKnown(cur);
      return Some(cur);
    }

    /** The segment loop, whose body runs at least once. */
    method FindSegs(m: Mem, first: nat, from: nat, segCount: nat, create: bool) returns (r: Option<nat>)
      requires Valid() && from < |nodes| && 0 < segCount
      modifies this
      ensures Valid() && Grown() && Bufs() == old(Bufs())
      ensures r.Some? <==> create || old(paths[from]) + Segs(m, first, segCount) in old(index)
      ensures r.Some? ==> r.value < |nodes| && paths[r.value] == old(paths[from]) + Segs(m, first, segCount)
      ensures !create ==> nodes == old(nodes) && paths == old(paths) && index == old(index)
      ensures FirstName() == if create && from == 0 && old(FirstName()).None? then Some(SegAt(m, first)) else old(FirstName())
    {
      hide Indexed, ChildrenOk;
      ghost var seg, here, rest := SegAt(m, first), paths[from], Segs(m, first + SEG_SIZE, segCount - 1);
      assert here + Segs(m, first, segCount) == (here + [seg]) + rest;
      if here + [seg] !in index { MissingSeg(here + [seg], rest); }
      var next := FindNodeInThis(SegAt(m, first), from, create);
      if next.None? { return None; }
      r := FindRest(m, first + SEG_SIZE, next.value, segCount - 1, create);
    }

    method FindNodeInTheTree(m: Mem, o: nat, parent: nat, create: bool) returns (r: Option<nat>)
      requires Valid() && parent < |nodes|
      requires NullNameIsRoot(m, o, paths[parent])
      modifies this
      ensures Valid() && Grown() && Bufs() == old(Bufs())
      ensures var q := Resolve(m, o, old(paths[parent]));
              && (r.Some? <==> create || q in old(index))
              && (r.Some? ==> r.value < |nodes| && paths[r.value] == q)
              && FirstName() == if create && q != [] && old(FirstName()).None? then Some(q[0]) else old(FirstName())
      ensures !create ==> nodes == old(nodes) && paths == old(paths) && index == old(index)
    {
      hide Indexed, ChildrenOk;
      var cur, b := FindOrigin(m, o, parent);
      if Read(m, b) == 0 {
        ParentLinksReachRoot(cur);
        assert cur == 0;
        PathKnown(cur);
        return Some(cur);
      }
      var first, segCount := FindFirstSeg(m, b);
      if FirstName().None? { OnlyRoot(); }
      r := FindSegs(m, first, cur, segCount, create);
    }

    /** Where the segments start and how many the header announces. */
    method FindFirstSeg(m: Mem, b: nat) returns (first: nat, segCount: nat)
      requires Read(m, b) != 0
      ensures 0 < segCount && b <= first && ParseSegHeader(m, b) == SegHeader(first - b, segCount)
    {
      if Read(m, b) == DUAL_PREFIX {
        return b + 1, 2;
      } else if Read(m, b) == MULTI_PREFIX {
        return b + 2, if At(m, b, 1) == 0 then 1 else At(m, b, 1);
      } else {
        return b, 1;
      }
    }

    /** Records an object at its path, unless the path already holds one. */
    method InsertNodeToTree(m: Mem, o: nat, buf: nat, parent: nat) returns (r: Option<nat>)
      requires Valid() && parent < |nodes|
      requires NullNameIsRoot(m, o, paths[parent])
      modifies this
      ensures Valid() && Grown()
      ensures var q := Resolve(m, o, old(paths[parent]));
              && (r.None? <==> q in old(Bufs()) && Read(m, buf) != SCOPE_OP)
              && (r.Some? ==> r.value < |nodes| && paths[r.value] == q)
              && Bufs() == (if q in old(Bufs()) || Read(m, buf) == SCOPE_OP then old(Bufs()) else old(Bufs())[q := buf])
              && FirstName() == if q != [] && old(FirstName()).None? then Some(q[0]) else old(FirstName())
    {
      r := FindNodeInTheTree(m, o, parent, true);
      var i := r.value;
      if nodes[i].buf.None? {
        if Read(m, buf) != SCOPE_OP {
          SetBuf(i, buf);
        }
        return;
      }
      if Read(m, buf) == SCOPE_OP {
        return;
      }
      return None;
    }

    method GetBuf(i: nat) returns (buf: Option<nat>)
      requires Valid() && i < |nodes|
      ensures buf.Some? <==> paths[i] in Bufs()
      ensures buf.Some? ==> Bufs()[paths[i]] == buf.value
    {
      PathKnown(i);
      buf := nodes[i].buf;
    }

    method FirstChild() returns (c: Option<nat>)
      requires Valid()
      ensures c.None? <==> FirstName().None?
      ensures c.Some? ==> 0 < c.value < |nodes| && paths[c.value] == [FirstName().value]
    {
      if nodes[0].children == [] {
        return None;
      }
      var k := nodes[0].children[0];
      assert IsChild(nodes, 0, k) && LinkedTo(nodes, paths, k);
      return Some(k);
    }

    method SetBuf(i: nat, buf: nat)
      requires Valid() && i < |nodes|
      modifies this`nodes
      ensures Valid() && Bufs() == old(Bufs())[paths[i] := buf] && FirstName() == old(FirstName())
      ensures |nodes| == old(|nodes|)
    {
      ghost var before := nodes;
      assert nodes[0].children != [] ==> IsChild(nodes, 0, nodes[0].children[0]);
      nodes := nodes[i := nodes[i].(buf := Some(buf))];
      forall j | 0 < j < |nodes| ensures LinkedTo(nodes, paths, j) {
        assert LinkedTo(before, paths, j);
      }
      forall j, k | 0 <= j < |nodes| && 0 <= k < |nodes[j].children| ensures IsChild(nodes, j, nodes[j].children[k]) {
        assert IsChild(before, j, before[j].children[k]);
      }
    }
  }
}

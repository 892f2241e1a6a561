/**
 ASL paths and AML NameStrings: the two-pass conversion of one to the other, the printed form
 of a NameString, and the round trip between them.
 */
module AslName {
  import opened Bytes
  import opened AmlName

  type Text = seq<byte>

  const DOT: byte := 0x2E

  predicate IsAslLeadName(c: byte) {
    IsLeadName(c) || 0x61 <= c <= 0x7A
  }

  predicate IsAslName(c: byte) {
    IsAslLeadName(c) || 0x30 <= c <= 0x39
  }

  predicate Ends(c: byte) {
    c == 0 || c == DOT
  }

  // ----- splitting a path into segments -----

  /** Up to `tries` more name characters after the first `n`; 0 when no terminator follows. */
  function ScanSeg(s: Text, o: nat, n: nat, tries: nat): (r: nat)
    requires o + n <= |s|
    ensures o + r <= |s| && r <= n + tries
    ensures r != 0 ==> Ends(Read(s, o + r)) && n <= r
    decreases tries
  {
    if tries == 0 then 0
    else
      var n' := if IsAslName(Read(s, o + n)) then n + 1 else n;
      if Ends(Read(s, o + n')) then n' else ScanSeg(s, o, n', tries - 1)
  }

  /** The length of the segment at `o`, 0 when there is none. */
  function SegLength(s: Text, o: nat): (r: nat)
    requires o <= |s|
    ensures o + r <= |s| && r <= 4
    ensures r != 0 ==> Ends(Read(s, o + r))
  {
    if Read(s, o) == 0 then 0
    else
      var n := if IsAslLeadName(Read(s, o)) then 1 else 0;
      if Ends(Read(s, o + n)) then n else ScanSeg(s, o, n, 3)
  }

  lemma NameCharFits(s: Text, i: nat)
    ensures IsAslName(Read(s, i)) ==> i < |s|
  {
  }

  /** The loop over the second to fourth character. */
  method ScanNameChars(s: Text, o: nat, start: nat) returns (length: nat)
    requires o + start <= |s|
    ensures length == ScanSeg(s, o, start, 3)
  {
    hide IsAslName, Ends;
    ghost var all := ScanSeg(s, o, start, 3);
    length := start;
    var left: nat := 3;
    while 0 < left
      invariant o + length <= |s|
      invariant all == ScanSeg(s, o, length, left)
    {
      NameCharFits(s, o + length);
      if IsAslName(Read(s, o + length)) {
        length := length + 1;
      }
      if Ends(Read(s, o + length)) { return; }
      left := left - 1;
    }
    return 0;
  }

  method GetAslNameSegLength(s: Text, o: nat) returns (length: nat)
    requires o <= |s|
    ensures length == SegLength(s, o)
  {
    if Read(s, o) == 0 { return 0; }
    length := if IsAslLeadName(Read(s, o)) then 1 else 0;
    if Ends(Read(s, o + length)) { return; }
    length := ScanNameChars(s, o, length);
  }

  /** The segments from `o` on, or None for an invalid path. */
  function Split(s: Text, o: nat): (r: Option<seq<Text>>)
    requires o <= |s|
    ensures r.Some? ==> forall i :: 0 <= i < |r.value| ==> 1 <= |r.value[i]| <= 4
    decreases |s| - o
  {
    if Read(s, o) == 0 then Some([])
    else
      var n := SegLength(s, o);
      if n == 0 then None
      else if Read(s, o + n) == 0 then Some([s[o..o + n]])
      else
        match Split(s, o + n + 1)
        case None => None
        case Some(rest) => Some([s[o..o + n]] + rest)
  }

  /** The segments of the whole path, after its root or parent prefix. */
  function PathSegs(s: Text): Option<seq<Text>> {
    PrefixFits(s, 0);
    Split(s, PrefixLength(s, 0))
  }

  lemma {:induction false} PrefixFits(s: Text, o: nat)
    requires o <= |s|
    ensures o + ParentRun(s, o) <= |s|
    ensures o + PrefixLength(s, o) <= |s|
    decreases |s| - o
  {
    if o < |s| && s[o] == PARENT_CHAR {
      PrefixFits(s, o + 1);
    }
  }

  // ----- the AML name of a path -----

  function Upper(c: byte): byte {
    if 0x61 <= c <= 0x7A then c - 0x20 else c
  }

  function UpperText(s: Text): (r: Text)
    ensures |r| == |s| && forall i :: 0 <= i < |s| ==> r[i] == Upper(s[i])
  {
    if s == [] then [] else [Upper(s[0])] + UpperText(s[1..])
  }

  function Underscores(n: nat): (r: Text)
    ensures |r| == n && forall i :: 0 <= i < n ==> r[i] == UNDERSCORE
  {
    if n == 0 then [] else [UNDERSCORE] + Underscores(n - 1)
  }

  /** A segment in AML: upper case, padded with underscores. */
  function Pad(seg: Text): (r: Text)
    requires |seg| <= 4
    ensures |r| == 4
  {
    UpperText(seg) + Underscores(4 - |seg|)
  }

  function Flatten(segs: seq<Text>): (r: Text)
    requires forall i :: 0 <= i < |segs| ==> |segs[i]| == 4
    ensures |r| == 4 * |segs|
  {
    if segs == [] then [] else segs[0] + Flatten(segs[1..])
  }

  function PadAll(segs: seq<Text>): (r: seq<Text>)
    requires forall i :: 0 <= i < |segs| ==> |segs[i]| <= 4
    ensures |r| == |segs| && forall i :: 0 <= i < |segs| ==> r[i] == Pad(segs[i]) && |r[i]| == 4
  {
    if segs == [] then [] else [Pad(segs[0])] + PadAll(segs[1..])
  }

  /** The bytes that announce the number of segments. */
  function CountHeader(count: nat): Text
    requires count <= 255
  {
    if count > 2 then [MULTI_PREFIX, count] else if count == 2 then [DUAL_PREFIX] else []
  }

  /** An AML name, NUL-terminated. */
  function AmlBytes(prefix: Text, segs: seq<Text>): (r: Text)
    requires |segs| <= 255 && forall i :: 0 <= i < |segs| ==> |segs[i]| == 4
    ensures |r| == |prefix| + |CountHeader(|segs|)| + 4 * |segs| + 1
  {
    prefix + CountHeader(|segs|) + Flatten(segs) + [0]
  }

  /** The AML name that an ASL path converts to, None when the path is rejected. */
  function Convert(s: Text): Option<Text> {
    PrefixFits(s, 0);
    match PathSegs(s)
    case None => None
    case Some(segs) =>
      if |segs| > 255 then None else Some(AmlBytes(s[..PrefixLength(s, 0)], PadAll(segs)))
  }

  // ----- the first pass -----

  datatype PathSize = PathSize(total: nat, root: nat, parent: nat, segCount: nat)

  /** The loop that checks and counts the segments. */
  method CountSegs(s: Text, start: nat) returns (ok: bool, segCount: nat)
    requires start <= |s|
    ensures ok == Split(s, start).Some?
    ensures ok ==> segCount == |Split(s, start).value|
  {
    hide SegLength;
    var b := start;
    segCount := 0;
    while Read(s, b) != 0
      invariant b <= |s|
      invariant Split(s, start).Some? == Split(s, b).Some?
      invariant Split(s, start).Some? ==> |Split(s, start).value| == segCount + |Split(s, b).value|
      decreases |s| - b
    {
      var length := GetAslNameSegLength(s, b);
      if length == 0 || length > SEG_SIZE {
        return false, segCount;
      }
      segCount := segCount + 1;
      b := b + length;
      if Read(s, b) == 0 {
        return true, segCount;
      }
      b := b + 1;
    }
    return true, segCount;
  }

  method GetAslNameStringSize(s: Text) returns (r: PathSize)
    ensures r.total == 0 <==> Convert(s).None?
    ensures r.total != 0 ==>
              && r.total == |Convert(s).value| && r.segCount == |PathSegs(s).value|
              && r.root + r.parent == PrefixLength(s, 0) && r.root == (if Read(s, 0) == ROOT_CHAR then 1 else 0)
  {
    PrefixFits(s, 0);
    var b := SkipPrefix(s, 0);
    var root := if Read(s, 0) == ROOT_CHAR then 1 else 0;
    var parent := b - root;
    var ok, segCount := CountSegs(s, b);
    if !ok || segCount > 0xFF {
      return PathSize(0, root, parent, segCount);
    }
    var total := root + parent + segCount * SEG_SIZE;
    if segCount > 2 {
      total := total + 2;
    } else if segCount == 2 {
      total := total + 1;
    }
    return PathSize(total + 1, root, parent, segCount);
  }

  // ----- the second pass, which fills the buffer -----

  method UpperCaseCopyMem(dst: array<byte>, d: nat, s: Text, o: nat, length: nat)
    requires o + length <= |s| && d + length <= dst.Length
    modifies dst
    ensures dst[..] == old(dst[..d]) + UpperText(s[o..o + length]) + old(dst[d + length..])
  {
    for index := 0 to length
      invariant forall k :: 0 <= k < dst.Length ==>
                  dst[k] == if d <= k < d + index then Upper(s[o + k - d]) else old(dst[k])
    {
      dst[d + index] := Upper(s[o + index]);
    }
    assert dst[..] == old(dst[..d]) + UpperText(s[o..o + length]) + old(dst[d + length..]);
  }

  method SetMem(dst: array<byte>, d: nat, length: nat, value: byte)
    requires d + length <= dst.Length
    modifies dst
    ensures forall k :: 0 <= k < dst.Length ==> dst[k] == if d <= k < d + length then value else old(dst[k])
  {
    for index := 0 to length
      invariant forall k :: 0 <= k < dst.Length ==> dst[k] == if d <= k < d + index then value else old(dst[k])
    {
      dst[d + index] := value;
    }
  }

  /** Writes one padded segment at `d`. */
  method CopySeg(dst: array<byte>, d: nat, s: Text, o: nat, length: nat)
    requires o + length <= |s| && length <= 4 && d + 4 <= dst.Length
    modifies dst
    ensures dst[..d + 4] == old(dst[..d]) + Pad(s[o..o + length])
  {
    UpperCaseCopyMem(dst, d, s, o, length);
    ghost var mid := dst[..];
    SetMem(dst, d + length, 4 - length, UNDERSCORE);
    assert dst[..d + 4] == mid[..d + length] + Underscores(4 - length);
    assert mid[..d + length] == old(dst[..d]) + UpperText(s[o..o + length]);
  }

  /** One step of the split. */
  lemma SplitStep(s: Text, b: nat)
    requires b <= |s| && Read(s, b) != 0 && Split(s, b).Some?
    ensures var n, segs := SegLength(s, b), Split(s, b).value;
            && n != 0 && segs != [] && segs[0] == s[b..b + n]
            && (Read(s, b + n) == 0 ==> segs[1..] == [])
            && (Read(s, b + n) != 0 ==> Split(s, b + n + 1) == Some(segs[1..]))
  {}

  lemma FlattenStep(segs: seq<Text>)
    requires segs != [] && forall i :: 0 <= i < |segs| ==> |segs[i]| <= 4
    ensures Flatten(PadAll(segs)) == Pad(segs[0]) + Flatten(PadAll(segs[1..]))
  {
    assert PadAll(segs)[1..] == PadAll(segs[1..]);
  }

  /** Copies the segment at `b`, the first of `segs`. */
  method CopyNext(dst: array<byte>, pos: nat, s: Text, b: nat, ghost segs: seq<Text>) returns (length: nat)
    requires b <= |s| && Read(s, b) != 0 && Split(s, b) == Some(segs)
    requires pos + 4 * |segs| <= dst.Length
    modifies dst
    ensures length == SegLength(s, b) != 0 && segs != []
    ensures dst[..pos + 4] + Flatten(PadAll(segs[1..])) == old(dst[..pos]) + Flatten(PadAll(segs))
  {
    hide SegLength, Flatten, PadAll, Pad, Split;
    SplitStep(s, b);
    FlattenStep(segs);
    length := GetAslNameSegLength(s, b);
    assert length != 0 && length <= SEG_SIZE;
    ghost var before, rest := dst[..pos], Flatten(PadAll(segs[1..]));
    CopySeg(dst, pos, s, b, length);
    assert (before + Pad(segs[0])) + rest == before + (Pad(segs[0]) + rest);
  }

  /** The loop that copies the segments behind the first `d` bytes. */
  method CopySegs(dst: array<byte>, d: nat, s: Text, start: nat)
    requires start <= |s| && Split(s, start).Some?
    requires d + 4 * |Split(s, start).value| <= dst.Length
    modifies dst
    ensures var segs := PadAll(Split(s, start).value);
            dst[..d + 4 * |segs|] == old(dst[..d]) + Flatten(segs)
  {
    hide SegLength, Flatten, PadAll;
    ghost var target := dst[..d] + Flatten(PadAll(Split(s, start).value));
    ghost var rest := Split(s, start).value;
    var b: nat, pos: nat := start, d;
    while Read(s, b) != 0
      invariant b <= |s| && pos + 4 * |rest| == |target| <= dst.Length
      invariant Split(s, b) == Some(rest)
      invariant dst[..pos] + Flatten(PadAll(rest)) == target
      decreases |s| - b
    {
      SplitStep(s, b);
      var length := CopyNext(dst, pos, s, b, rest);
      b, pos, rest := b + length, pos + SEG_SIZE, rest[1..];
      if Read(s, b) != 0 {
        b := b + 1;
      }
    }
    assert rest == [];
    assert dst[..pos] == target;
  }

  /** Writes the root or parent prefix. */
  method WritePrefix(buf: array<byte>, s: Text, size: PathSize) returns (pos: nat)
    requires size.root + size.parent == PrefixLength(s, 0) <= buf.Length
    requires size.root == if Read(s, 0) == ROOT_CHAR then 1 else 0
    modifies buf
    ensures pos == PrefixLength(s, 0) <= |s| && buf[..pos] == s[..pos]
  {
    PrefixFits(s, 0);
    pos := 0;
    if size.root == 1 {
      buf[0] := ROOT_CHAR;
      pos := 1;
    } else if size.parent > 0 {
      ParentRunText(s, 0);
      SetMem(buf, 0, size.parent, PARENT_CHAR);
      pos := size.parent;
    }
  }

  /** Writes the bytes that announce the number of segments. */
  method WriteCount(buf: array<byte>, p: nat, segCount: nat) returns (pos: nat)
    requires segCount <= 255 && p + |CountHeader(segCount)| <= buf.Length
    modifies buf
    ensures pos == p + |CountHeader(segCount)| && buf[..pos] == old(buf[..p]) + CountHeader(segCount)
  {
    pos := p;
    if segCount > 2 {
      buf[pos] := MULTI_PREFIX;
      pos := pos + 1;
      buf[pos] := segCount;
      pos := pos + 1;
    } else if segCount == 2 {
      buf[pos] := DUAL_PREFIX;
      pos := pos + 1;
    }
  }

  /**
   The conversion as the driver performs it. Both passes agree: the second fills exactly the
   buffer that the first one sized.
   */
  method NameFromAslName(s: Text) returns (r: Option<Text>)
    ensures r == Convert(s)
  {
    var size := GetAslNameStringSize(s);
    if size.total == 0 {
      return None;
    }
    PrefixFits(s, 0);
    ghost var p, segs := PrefixLength(s, 0), PathSegs(s).value;
    ghost var aml := AmlBytes(s[..p], PadAll(segs));
    assert size.total == |aml|;
    var bytes := FillName(s, size);
    return Some(bytes);
  }

  /** The second pass, over the buffer that the first pass sized. */
  method FillName(s: Text, size: PathSize) returns (r: Text)
    requires Convert(s).Some? && size.total == |Convert(s).value| && size.segCount == |PathSegs(s).value|
    requires size.root + size.parent == PrefixLength(s, 0)
    requires size.root == if Read(s, 0) == ROOT_CHAR then 1 else 0
    ensures r == Convert(s).value
  {
    PrefixFits(s, 0);
    ghost var segs := PadAll(PathSegs(s).value);
    var buf := new byte[size.total];
    var start := WritePrefix(buf, s, size);
    var pos := WriteCount(buf, start, size.segCount);
    ghost var head := buf[..pos];
    assert head == s[..start] + CountHeader(|segs|);
    CopySegs(buf, pos, s, start);
    ghost var most := buf[..size.total - 1];
    assert most == head + Flatten(segs);
    buf[size.total - 1] := 0;
    assert buf[..] == most + [0];
    return buf[..];
  }

  lemma {:induction false} ParentRunText(s: Text, o: nat)
    requires o <= |s|
    ensures o + ParentRun(s, o) <= |s|
    ensures forall i :: o <= i < o + ParentRun(s, o) ==> s[i] == PARENT_CHAR
    decreases |s| - o
  {
    if o < |s| && s[o] == PARENT_CHAR {
      ParentRunText(s, o + 1);
    }
  }
}
